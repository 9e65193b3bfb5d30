/** `LookupService`: the providers are asked, their answers ordered by
  * priority, and the answers merged by a first-fit pass on exact id
  * intersection. Providers are plain records; what a provider answers is an
  * input (`Outcome`), since it is network code. */
module Aggregator {
  import opened Wrappers
  import opened JavaStrings
  import opened SchemeRegistry
  import opened IdTypes
  import opened Events
  import Entities

  // ---- entity types ----

  /** `LookupService.Type`. */
  datatype LookupType = PersonType | CorporateType | PlaceType

  function SimpleName(t: LookupType): string
  {
    match t
    case PersonType => "Person"
    case CorporateType => "Corporate"
    case PlaceType => "Place"
  }

  /** `Type.fromValue`: the type of an entity class, or `None` where the
    * source throws `IllegalArgumentException`. */
  function FromSimpleName(name: string): (r: Option<LookupType>)
    ensures r.Some? ==> SimpleName(r.value) == name
  {
    if name == "Person" then Some(PersonType)
    else if name == "Corporate" then Some(CorporateType)
    else if name == "Place" then Some(PlaceType)
    else None
  }

  lemma FromSimpleNameInverse(t: LookupType)
    ensures FromSimpleName(SimpleName(t)) == Some(t)
  {
  }

  /** The provider method `suggest` calls reflectively. */
  function SuggestMethod(t: LookupType): string
  {
    "suggest" + SimpleName(t)
  }

  /** The provider method `lookup` calls: the simple name lower-cased. */
  function LookupMethod(t: LookupType): string
  {
    seq(|SimpleName(t)|, i requires 0 <= i < |SimpleName(t)| => ToLowerAscii(SimpleName(t)[i]))
  }

  // ---- the merge pass ----

  /** `anyMatch(l1, l2)`: some id of `l1` equals some id of `l2`. */
  predicate AnyMatch(l1: seq<IdType>, l2: seq<IdType>)
  {
    exists i :: 0 <= i < |l1| && l1[i] in l2
  }

  lemma AnyMatchSymmetric(l1: seq<IdType>, l2: seq<IdType>)
    ensures AnyMatch(l1, l2) <==> AnyMatch(l2, l1)
  {
    if AnyMatch(l1, l2) {
      var i :| 0 <= i < |l1| && l1[i] in l2;
      var j :| 0 <= j < |l2| && l2[j] == l1[i];
    }
    if AnyMatch(l2, l1) {
      var j :| 0 <= j < |l2| && l2[j] in l1;
      var i :| 0 <= i < |l1| && l1[i] == l2[j];
    }
  }

  /** The first accepted item sharing an id with `ids`. */
  function FirstMatch<T>(merged: seq<T>, ids: seq<IdType>, idsOf: T -> seq<IdType>): (r: Option<nat>)
    ensures r.Some? ==> r.value < |merged| && AnyMatch(ids, idsOf(merged[r.value]))
    ensures r.Some? ==> forall j :: 0 <= j < r.value ==> !AnyMatch(ids, idsOf(merged[j]))
    ensures r.None? ==> forall j :: 0 <= j < |merged| ==> !AnyMatch(ids, idsOf(merged[j]))
  {
    if merged == [] then None
    else if AnyMatch(ids, idsOf(merged[0])) then Some(0)
    else
      var r := FirstMatch(merged[1..], ids, idsOf);
      assert forall j :: 1 <= j < |merged| ==> merged[j] == merged[1..][j - 1];
      if r.Some? then Some(r.value + 1) else None
  }

  /** One object of the pass: merged into the first accepted item it shares
    * an id with (counting one merge), or else accepted at the end. `absorb`
    * is the entity's `merge`; `None` is an exception, which ends the pass. */
  function MergeStep<T>(merged: seq<T>, count: nat, o: T, idsOf: T -> seq<IdType>, absorb: (T, T) -> Option<T>)
    : Option<(seq<T>, nat)>
  {
    match FirstMatch(merged, idsOf(o), idsOf)
    case None => Some((merged + [o], count))
    case Some(j) =>
      match absorb(merged[j], o)
      case None => None
      case Some(a) => Some((merged[j := a], count + 1))
  }

  /** `merge(objs)`: the accepted items and the number of merges. */
  function MergeAll<T>(objs: seq<T>, idsOf: T -> seq<IdType>, absorb: (T, T) -> Option<T>): (r: Option<(seq<T>, nat)>)
    ensures r.Some? ==> |r.value.0| <= |objs|
    ensures r.Some? && objs != [] ==> r.value.0 != []
    decreases |objs|
  {
    if objs == [] then Some(([], 0))
    else
      match MergeAll(objs[..|objs| - 1], idsOf, absorb)
      case None => None
      case Some(acc) => MergeStep(acc.0, acc.1, objs[|objs| - 1], idsOf, absorb)
  }

  /** Once the pass has thrown, the remaining objects do not matter. */
  lemma {:induction false} MergeAllFailureStays<T>(objs: seq<T>, i: nat, idsOf: T -> seq<IdType>, absorb: (T, T) -> Option<T>)
    requires i <= |objs| && MergeAll(objs[..i], idsOf, absorb).None?
    ensures MergeAll(objs, idsOf, absorb).None?
    decreases |objs| - i
  {
    if i < |objs| {
      assert objs[..i + 1][..i] == objs[..i];
      MergeAllFailureStays(objs, i + 1, idsOf, absorb);
    } else {
      assert objs[..i] == objs;
    }
  }

  /** The loop of `merge`: for each object, the first accepted item sharing
    * an id is searched; the object is merged into it, or appended. */
  method MergePass<T>(objs: seq<T>, idsOf: T -> seq<IdType>, absorb: (T, T) -> Option<T>)
    returns (merged: seq<T>, numMerged: nat, failed: bool)
    ensures failed <==> MergeAll(objs, idsOf, absorb).None?
    ensures !failed ==> MergeAll(objs, idsOf, absorb) == Some((merged, numMerged))
  {
    merged, numMerged, failed := [], 0, false;
    var i := 0;
    while i < |objs| && !failed
      invariant 0 <= i <= |objs|
      invariant !failed ==> MergeAll(objs[..i], idsOf, absorb) == Some((merged, numMerged))
      invariant failed ==> MergeAll(objs[..i], idsOf, absorb).None?
    {
      var o := objs[i];
      var j := 0;
      while j < |merged| && !AnyMatch(idsOf(o), idsOf(merged[j]))
        invariant 0 <= j <= |merged|
        invariant forall k :: 0 <= k < j ==> !AnyMatch(idsOf(o), idsOf(merged[k]))
      {
        j := j + 1;
      }
      ghost var first := FirstMatch(merged, idsOf(o), idsOf);
      assert first == if j < |merged| then Some(j) else None;
      if j < |merged| {
        var a := absorb(merged[j], o);
        if a.None? {
          failed := true;
        } else {
          merged := merged[j := a.value];
          numMerged := numMerged + 1;
        }
      } else {
        merged := merged + [o];
      }
      assert objs[..i + 1][..i] == objs[..i];
      i := i + 1;
    }
    if failed {
      MergeAllFailureStays(objs, i, idsOf, absorb);
    } else {
      assert objs[..i] == objs;
    }
  }

  /** Every object is either accepted or merged: #merged + |output| = |input|. */
  lemma {:induction false} MergeAllCount<T>(objs: seq<T>, idsOf: T -> seq<IdType>, absorb: (T, T) -> Option<T>)
    requires MergeAll(objs, idsOf, absorb).Some?
    ensures var r := MergeAll(objs, idsOf, absorb).value; r.1 + |r.0| == |objs|
    decreases |objs|
  {
    if objs != [] {
      MergeAllCount(objs[..|objs| - 1], idsOf, absorb);
    }
  }

  /** Objects that pairwise share no id are all accepted, in order, with no
    * merge. */
  lemma {:induction false} MergeAllDisjoint<T>(objs: seq<T>, idsOf: T -> seq<IdType>, absorb: (T, T) -> Option<T>)
    requires forall i, j :: 0 <= i < j < |objs| ==> !AnyMatch(idsOf(objs[j]), idsOf(objs[i]))
    ensures MergeAll(objs, idsOf, absorb) == Some((objs, 0))
    decreases |objs|
  {
    if objs != [] {
      var init := objs[..|objs| - 1];
      MergeAllDisjoint(init, idsOf, absorb);
      assert FirstMatch(init, idsOf(objs[|objs| - 1]), idsOf).None?;
      assert init + [objs[|objs| - 1]] == objs;
    }
  }

  /** The first object stays first; it is left as it was when no later
    * object shares an id with it. */
  lemma {:induction false} MergeAllKeepsHead<T>(objs: seq<T>, idsOf: T -> seq<IdType>, absorb: (T, T) -> Option<T>)
    requires objs != [] && MergeAll(objs, idsOf, absorb).Some?
    requires forall k :: 1 <= k < |objs| ==> !AnyMatch(idsOf(objs[k]), idsOf(objs[0]))
    ensures var m := MergeAll(objs, idsOf, absorb).value.0; |m| >= 1 && m[0] == objs[0]
    decreases |objs|
  {
    if |objs| > 1 {
      var init := objs[..|objs| - 1];
      assert MergeAll(init, idsOf, absorb).Some?;
      MergeAllKeepsHead(init, idsOf, absorb);
    }
  }

  /** With merges that keep the receiver's ids (those of `Place` and
    * `Corporate`) no two accepted items share an id. */
  lemma {:induction false} MergeAllSeparates<T>(objs: seq<T>, idsOf: T -> seq<IdType>, absorb: (T, T) -> Option<T>)
    requires forall a, o :: absorb(a, o).Some? ==> idsOf(absorb(a, o).value) == idsOf(a)
    requires MergeAll(objs, idsOf, absorb).Some?
    ensures var m := MergeAll(objs, idsOf, absorb).value.0;
      forall i, j :: 0 <= i < j < |m| ==> !AnyMatch(idsOf(m[i]), idsOf(m[j]))
    decreases |objs|
  {
    if objs != [] {
      var init := objs[..|objs| - 1];
      var o := objs[|objs| - 1];
      MergeAllSeparates(init, idsOf, absorb);
      var acc := MergeAll(init, idsOf, absorb).value;
      var m := MergeAll(objs, idsOf, absorb).value.0;
      match FirstMatch(acc.0, idsOf(o), idsOf)
      case None =>
        forall i, j | 0 <= i < j < |m| ensures !AnyMatch(idsOf(m[i]), idsOf(m[j])) {
          if j == |acc.0| {
            AnyMatchSymmetric(idsOf(m[i]), idsOf(o));
          }
        }
      case Some(k) =>
        assert forall i :: 0 <= i < |m| ==> idsOf(m[i]) == idsOf(acc.0[i]);
    }
  }

  // ---- providers ----

  /** A provider: its `@Priority` (absent is 0) and its supported schemes. */
  datatype Provider = Provider(priority: Option<int>, supportedSchemes: seq<Scheme>)

  function PriorityOf(p: Provider): int
  {
    if p.priority.Some? then p.priority.value else 0
  }

  /** What one provider call gave: a value (`null` being `None`),
    * `UnsupportedOperationException`, `SocketException`, or any other
    * exception. */
  datatype Outcome<R> = Answered(result: Option<R>) | NotSupported | Transient | Fatal

  /** `order` lists every provider once, highest priority first; providers
    * of equal priority may come in any order. */
  predicate IsPriorityOrder(ps: seq<Provider>, order: seq<nat>)
  {
    |order| == |ps| &&
    (forall i :: 0 <= i < |order| ==> order[i] < |ps|) &&
    (forall i, j :: 0 <= i < j < |order| ==> order[i] != order[j]) &&
    (forall i, j :: 0 <= i < j < |order| ==> PriorityOf(ps[order[i]]) >= PriorityOf(ps[order[j]]))
  }

  /** A provider's list: a null list, an unsupported call and a network
    * failure all count as empty. */
  function ListOf<T>(o: Outcome<seq<T>>): seq<T>
  {
    if o.Answered? && o.result.Some? then o.result.value else []
  }

  /** The lists in priority order, flattened. */
  function Gather<T>(outs: seq<Outcome<seq<T>>>, order: seq<nat>): (r: seq<T>)
    requires forall i :: 0 <= i < |order| ==> order[i] < |outs|
    ensures forall k :: 0 <= k < |r| ==> exists i :: 0 <= i < |order| && r[k] in ListOf(outs[order[i]])
    ensures forall i, k :: 0 <= i < |order| && 0 <= k < |ListOf(outs[order[i]])| ==> ListOf(outs[order[i]])[k] in r
  {
    if order == [] then []
    else
      var t := Gather(outs, order[1..]);
      GatherStepFrom(outs, order, t);
      GatherStepHolds(outs, order, t);
      ListOf(outs[order[0]]) + t
  }

  /** One step of `Gather`: every item of the first provider's list
    * prepended to the flattened rest comes from some provider's list. */
  lemma GatherStepFrom<T>(outs: seq<Outcome<seq<T>>>, order: seq<nat>, t: seq<T>)
    requires order != [] && forall i :: 0 <= i < |order| ==> order[i] < |outs|
    requires forall k :: 0 <= k < |t| ==> exists i :: 0 <= i < |order[1..]| && t[k] in ListOf(outs[order[1..][i]])
    ensures var r := ListOf(outs[order[0]]) + t;
      forall k :: 0 <= k < |r| ==> exists i :: 0 <= i < |order| && r[k] in ListOf(outs[order[i]])
  {
    var h := ListOf(outs[order[0]]);
    var r := h + t;
    forall k | 0 <= k < |r|
      ensures exists i :: 0 <= i < |order| && r[k] in ListOf(outs[order[i]])
    {
      if k < |h| {
        assert r[k] == h[k];
        assert r[k] in ListOf(outs[order[0]]);
      } else {
        assert r[k] == t[k - |h|];
        var j :| 0 <= j < |order[1..]| && t[k - |h|] in ListOf(outs[order[1..][j]]);
        assert order[1..][j] == order[j + 1];
        assert r[k] in ListOf(outs[order[j + 1]]);
      }
    }
  }

  /** One step of `Gather`: the first provider's list prepended to the
    * flattened rest holds every item of every list. */
  lemma GatherStepHolds<T>(outs: seq<Outcome<seq<T>>>, order: seq<nat>, t: seq<T>)
    requires order != [] && forall i :: 0 <= i < |order| ==> order[i] < |outs|
    requires forall i, k :: 0 <= i < |order[1..]| && 0 <= k < |ListOf(outs[order[1..][i]])| ==> ListOf(outs[order[1..][i]])[k] in t
    ensures var r := ListOf(outs[order[0]]) + t;
      forall i, k :: 0 <= i < |order| && 0 <= k < |ListOf(outs[order[i]])| ==> ListOf(outs[order[i]])[k] in r
  {
    var h := ListOf(outs[order[0]]);
    var r := h + t;
    forall i, k | 0 <= i < |order| && 0 <= k < |ListOf(outs[order[i]])|
      ensures ListOf(outs[order[i]])[k] in r
    {
      if i == 0 {
        assert r[k] == h[k];
      } else {
        assert order[1..][i - 1] == order[i];
        var x := ListOf(outs[order[i]])[k];
        assert x in t;
        var m :| 0 <= m < |t| && t[m] == x;
        assert r[|h| + m] == x;
      }
    }
  }

  predicate SomeFatal<R>(outs: seq<Outcome<R>>)
  {
    exists i :: 0 <= i < |outs| && outs[i].Fatal?
  }

  /** `suggest`: `None` when an exception escapes (a provider's fatal
    * failure or a failing merge), else the merged list. */
  function Suggest<T>(ps: seq<Provider>, outs: seq<Outcome<seq<T>>>, order: seq<nat>,
                      idsOf: T -> seq<IdType>, absorb: (T, T) -> Option<T>): (r: Option<seq<T>>)
    requires |outs| == |ps| && IsPriorityOrder(ps, order)
    ensures SomeFatal(outs) ==> r.None?
    ensures r.Some? ==> |r.value| <= |Gather(outs, order)|
    ensures r.Some? ==> (r.value == [] <==> Gather(outs, order) == [])
  {
    if SomeFatal(outs) then None
    else
      match MergeAll(Gather(outs, order), idsOf, absorb)
      case None => None
      case Some(r) => Some(r.0)
  }

  /** A provider that fails with anything but the two tolerated exceptions
    * makes `suggest` throw. */
  lemma SuggestFatal<T>(ps: seq<Provider>, outs: seq<Outcome<seq<T>>>, order: seq<nat>,
                        idsOf: T -> seq<IdType>, absorb: (T, T) -> Option<T>, k: nat)
    requires |outs| == |ps| && IsPriorityOrder(ps, order) && k < |outs| && outs[k].Fatal?
    ensures Suggest(ps, outs, order, idsOf, absorb).None?
  {
  }

  lemma {:induction false} GatherEmpty<T>(outs: seq<Outcome<seq<T>>>, order: seq<nat>)
    requires forall i :: 0 <= i < |order| ==> order[i] < |outs|
    requires forall i :: 0 <= i < |outs| ==> ListOf(outs[i]) == []
    ensures Gather(outs, order) == []
  {
    if order != [] {
      GatherEmpty(outs, order[1..]);
    }
  }

  /** When no provider has anything (null, empty, unsupported or
    * unreachable), `suggest` gives the empty list. */
  lemma SuggestNothing<T>(ps: seq<Provider>, outs: seq<Outcome<seq<T>>>, order: seq<nat>,
                          idsOf: T -> seq<IdType>, absorb: (T, T) -> Option<T>)
    requires |outs| == |ps| && IsPriorityOrder(ps, order)
    requires forall i :: 0 <= i < |outs| ==> !outs[i].Fatal? && ListOf(outs[i]) == []
    ensures Suggest(ps, outs, order, idsOf, absorb) == Some([])
  {
    GatherEmpty(outs, order);
  }

  /** The flattened list has every provider's list, highest priority first:
    * the first provider's list is its prefix. */
  lemma GatherPriorityFirst<T>(outs: seq<Outcome<seq<T>>>, order: seq<nat>)
    requires forall i :: 0 <= i < |order| ==> order[i] < |outs|
    requires order != []
    ensures Gather(outs, order)[..|ListOf(outs[order[0]])|] == ListOf(outs[order[0]])
  {
  }

  /** Answers that share no id come back as the flattened lists, unmerged. */
  lemma SuggestDisjoint<T>(ps: seq<Provider>, outs: seq<Outcome<seq<T>>>, order: seq<nat>,
                           idsOf: T -> seq<IdType>, absorb: (T, T) -> Option<T>)
    requires |outs| == |ps| && IsPriorityOrder(ps, order) && !SomeFatal(outs)
    requires forall i, j :: 0 <= i < j < |Gather(outs, order)| ==>
      !AnyMatch(idsOf(Gather(outs, order)[j]), idsOf(Gather(outs, order)[i]))
    ensures Suggest(ps, outs, order, idsOf, absorb) == Some(Gather(outs, order))
  {
    MergeAllDisjoint(Gather(outs, order), idsOf, absorb);
  }

  /** A provider is asked for an id when its schemes hold the id's scheme
    * (schemes compare by identity; a null scheme is in no list). */
  predicate Asked(p: Provider, scheme: Option<Scheme>)
  {
    scheme.Some? && scheme.value in p.supportedSchemes
  }

  /** The non-null answers of the asked providers, in priority order. */
  function Answers<T>(ps: seq<Provider>, outs: seq<Outcome<T>>, order: seq<nat>, scheme: Option<Scheme>): (r: seq<T>)
    requires |outs| == |ps|
    requires forall i :: 0 <= i < |order| ==> order[i] < |ps|
    ensures |r| <= |order|
    ensures forall k :: 0 <= k < |r| ==>
      exists i :: 0 <= i < |order| && Asked(ps[order[i]], scheme) && outs[order[i]] == Answered(Some(r[k]))
    ensures forall i :: (0 <= i < |order| && Asked(ps[order[i]], scheme) && outs[order[i]].Answered? &&
                         outs[order[i]].result.Some?) ==> outs[order[i]].result.value in r
  {
    if order == [] then []
    else
      var k := order[0];
      var rest := Answers(ps, outs, order[1..], scheme);
      if Asked(ps[k], scheme) && outs[k].Answered? && outs[k].result.Some? then [outs[k].result.value] + rest else rest
  }

  /** An asked provider failed fatally. */
  predicate AskedFatal<T>(ps: seq<Provider>, outs: seq<Outcome<T>>, scheme: Option<Scheme>)
    requires |outs| == |ps|
  {
    exists i :: 0 <= i < |ps| && Asked(ps[i], scheme) && outs[i].Fatal?
  }

  /** `lookup(type, idType)`: `None` when an exception escapes; otherwise
    * the first merged item, or null when nobody answered. */
  function LookupId<T>(ps: seq<Provider>, outs: seq<Outcome<T>>, order: seq<nat>, t: IdType,
                       idsOf: T -> seq<IdType>, absorb: (T, T) -> Option<T>): (r: Option<Option<T>>)
    requires |outs| == |ps| && IsPriorityOrder(ps, order)
    ensures AskedFatal(ps, outs, t.scheme) ==> r.None?
    ensures r.Some? ==> (r.value.None? <==> Answers(ps, outs, order, t.scheme) == [])
  {
    if AskedFatal(ps, outs, t.scheme) then None
    else
      match MergeAll(Answers(ps, outs, order, t.scheme), idsOf, absorb)
      case None => None
      case Some(r) => Some(if r.0 == [] then None else Some(r.0[0]))
  }

  /** `lookup(type, idType)` with its event: once the merged result is
    * known, a non-null result is announced as one "index" event through the
    * synchronous `fireEvent`, whose listeners run in `listenerOrder`. A
    * listener that throws makes `fireEvent`, and so `lookup`, throw
    * (`r` is `None`). Returns the events fired and the listeners called. */
  method Lookup<T>(ps: seq<Provider>, outs: seq<Outcome<T>>, order: seq<nat>, t: IdType,
                   idsOf: T -> seq<IdType>, absorb: (T, T) -> Option<T>,
                   events: EventManager<T>, listenerOrder: seq<string>, throws: (Listener, Event<T>) -> bool)
    returns (r: Option<Option<T>>, fired: seq<Event<T>>, called: seq<Listener>)
    requires |outs| == |ps| && IsPriorityOrder(ps, order)
    requires IsEnumeration(listenerOrder, events.listeners)
    ensures var found := LookupId(ps, outs, order, t, idsOf, absorb);
      (fired != [] <==> found.Some? && found.value.Some?) &&
      (fired != [] ==> fired == [Event("index", found.value.value)])
    ensures fired == [] ==> called == [] && r == LookupId(ps, outs, order, t, idsOf, absorb)
    ensures fired != [] ==>
      var ls := InOrder(listenerOrder, events.listeners);
      var k := FirstThrower(ls, fired[0], throws);
      (r.None? <==> k < |ls|) &&
      (r.Some? ==> r == LookupId(ps, outs, order, t, idsOf, absorb)) &&
      called == ls[..if k < |ls| then k + 1 else k]
  {
    var found := LookupId(ps, outs, order, t, idsOf, absorb);
    if found.Some? && found.value.Some? {
      var e := Event("index", found.value.value);
      var failed;
      fired := [e];
      called, failed := events.FireEvent(e, listenerOrder, throws);
      r := if failed then None else found;
    } else {
      r, fired, called := found, [], [];
    }
  }

  /** `lookup(type, scheme, id)` and `lookup(type, text)`: a text that
    * does not parse gives null without asking anyone. */
  function LookupText<T>(schemes: seq<Scheme>, text: string, ps: seq<Provider>, outs: seq<Outcome<T>>,
                         order: seq<nat>, idsOf: T -> seq<IdType>, absorb: (T, T) -> Option<T>): (r: Option<Option<T>>)
    requires |outs| == |ps| && IsPriorityOrder(ps, order)
    ensures r.Some? && r.value.Some? ==>
      Parse(schemes, text).Some? && Answers(ps, outs, order, Parse(schemes, text).value.scheme) != []
  {
    match Parse(schemes, text)
    case None => Some(None)
    case Some(t) => LookupId(ps, outs, order, t, idsOf, absorb)
  }

  lemma LookupUnparsable<T>(schemes: seq<Scheme>, text: string, ps: seq<Provider>, outs: seq<Outcome<T>>,
                            order: seq<nat>, idsOf: T -> seq<IdType>, absorb: (T, T) -> Option<T>)
    requires |outs| == |ps| && IsPriorityOrder(ps, order) && Parse(schemes, text).None?
    ensures LookupText(schemes, text, ps, outs, order, idsOf, absorb) == Some(None)
  {
  }

  /** `lookup(type, text)` with its event: an unparsable text gives null
    * and fires nothing; a parsed one is looked up as `Lookup` does. */
  method LookupByText<T>(schemes: seq<Scheme>, text: string, ps: seq<Provider>, outs: seq<Outcome<T>>,
                         order: seq<nat>, idsOf: T -> seq<IdType>, absorb: (T, T) -> Option<T>,
                         events: EventManager<T>, listenerOrder: seq<string>, throws: (Listener, Event<T>) -> bool)
    returns (r: Option<Option<T>>, fired: seq<Event<T>>, called: seq<Listener>)
    requires |outs| == |ps| && IsPriorityOrder(ps, order)
    requires IsEnumeration(listenerOrder, events.listeners)
    ensures Parse(schemes, text).None? ==> r == Some(None) && fired == [] && called == []
    ensures var found := LookupText(schemes, text, ps, outs, order, idsOf, absorb);
      (fired != [] <==> found.Some? && found.value.Some?) &&
      (fired != [] ==> fired == [Event("index", found.value.value)])
    ensures fired == [] ==> called == [] && r == LookupText(schemes, text, ps, outs, order, idsOf, absorb)
    ensures fired != [] ==>
      var ls := InOrder(listenerOrder, events.listeners);
      var k := FirstThrower(ls, fired[0], throws);
      (r.None? <==> k < |ls|) &&
      (r.Some? ==> r == LookupText(schemes, text, ps, outs, order, idsOf, absorb)) &&
      called == ls[..if k < |ls| then k + 1 else k]
  {
    var t := Parse(schemes, text);
    if t.None? {
      r, fired, called := Some(None), [], [];
    } else {
      r, fired, called := Lookup(ps, outs, order, t.value, idsOf, absorb, events, listenerOrder, throws);
    }
  }

  lemma {:induction false} AnswersIgnoreUnasked<T>(ps: seq<Provider>, outs: seq<Outcome<T>>, outs2: seq<Outcome<T>>,
                                                   order: seq<nat>, scheme: Option<Scheme>)
    requires |outs| == |ps| && |outs2| == |ps|
    requires forall i :: 0 <= i < |order| ==> order[i] < |ps|
    requires forall i :: 0 <= i < |ps| && Asked(ps[i], scheme) ==> outs[i] == outs2[i]
    ensures Answers(ps, outs, order, scheme) == Answers(ps, outs2, order, scheme)
  {
    if order != [] {
      AnswersIgnoreUnasked(ps, outs, outs2, order[1..], scheme);
    }
  }

  /** Only providers supporting the id's scheme matter: whatever the others
    * would have answered, the result is the same. */
  lemma LookupAsksOnlySupporting<T>(ps: seq<Provider>, outs: seq<Outcome<T>>, outs2: seq<Outcome<T>>, order: seq<nat>,
                                    t: IdType, idsOf: T -> seq<IdType>, absorb: (T, T) -> Option<T>)
    requires |outs| == |ps| && |outs2| == |ps| && IsPriorityOrder(ps, order)
    requires forall i :: 0 <= i < |ps| && Asked(ps[i], t.scheme) ==> outs[i] == outs2[i]
    ensures LookupId(ps, outs, order, t, idsOf, absorb) == LookupId(ps, outs2, order, t, idsOf, absorb)
  {
    AnswersIgnoreUnasked(ps, outs, outs2, order, t.scheme);
  }

  lemma {:induction false} AnswersNullScheme<T>(ps: seq<Provider>, outs: seq<Outcome<T>>, order: seq<nat>)
    requires |outs| == |ps|
    requires forall i :: 0 <= i < |order| ==> order[i] < |ps|
    ensures Answers(ps, outs, order, None) == []
  {
    if order != [] {
      AnswersNullScheme(ps, outs, order[1..]);
    }
  }

  /** An id without a scheme is asked of nobody and gives null, firing no
    * event. */
  lemma LookupNullScheme<T>(ps: seq<Provider>, outs: seq<Outcome<T>>, order: seq<nat>, id: string,
                            idsOf: T -> seq<IdType>, absorb: (T, T) -> Option<T>)
    requires |outs| == |ps| && IsPriorityOrder(ps, order)
    ensures LookupId(ps, outs, order, IdType(None, id), idsOf, absorb) == Some(None)
  {
    AnswersNullScheme(ps, outs, order);
  }

  /** The highest-priority answer merged, in order, with every later answer
    * that shares an id with it as it stands at that point; answers that do
    * not are skipped. `None` when one of those merges throws. */
  function MergeInto<T>(head: T, rest: seq<T>, idsOf: T -> seq<IdType>, absorb: (T, T) -> Option<T>): Option<T>
    decreases |rest|
  {
    if rest == [] then Some(head)
    else
      match MergeInto(head, rest[..|rest| - 1], idsOf, absorb)
      case None => None
      case Some(h) =>
        var o := rest[|rest| - 1];
        if AnyMatch(idsOf(o), idsOf(h)) then absorb(h, o) else Some(h)
  }

  /** The first item of the pass is the first object merged with exactly
    * the later objects that share an id with it: the others never touch it. */
  lemma {:induction false} MergeAllHead<T>(objs: seq<T>, idsOf: T -> seq<IdType>, absorb: (T, T) -> Option<T>)
    requires objs != [] && MergeAll(objs, idsOf, absorb).Some?
    ensures var m := MergeAll(objs, idsOf, absorb).value.0;
      m != [] && MergeInto(objs[0], objs[1..], idsOf, absorb) == Some(m[0])
    decreases |objs|
  {
    var n := |objs|;
    var last := objs[n - 1];
    if n == 1 {
      assert objs[1..] == [];
    } else {
      var init := objs[..n - 1];
      assert MergeAll(init, idsOf, absorb).Some?;
      MergeAllHead(init, idsOf, absorb);
      var acc := MergeAll(init, idsOf, absorb).value;
      assert init[0] == objs[0];
      assert objs[1..][..n - 2] == init[1..];
      assert objs[1..][n - 2] == last;
      var h := acc.0[0];
      assert MergeInto(objs[0], init[1..], idsOf, absorb) == Some(h);
      match FirstMatch(acc.0, idsOf(last), idsOf)
      case None =>
      case Some(j) =>
        if j > 0 {
          assert !AnyMatch(idsOf(last), idsOf(acc.0[0]));
        }
    }
  }

  /** The result of `lookup` is the highest-priority answer merged with the
    * later answers that share an id with it; null when nobody answered. */
  lemma LookupHighestPriority<T>(ps: seq<Provider>, outs: seq<Outcome<T>>, order: seq<nat>, t: IdType,
                                 idsOf: T -> seq<IdType>, absorb: (T, T) -> Option<T>)
    requires |outs| == |ps| && IsPriorityOrder(ps, order) && !AskedFatal(ps, outs, t.scheme)
    requires MergeAll(Answers(ps, outs, order, t.scheme), idsOf, absorb).Some?
    ensures var a := Answers(ps, outs, order, t.scheme);
      LookupId(ps, outs, order, t, idsOf, absorb) == Some(if a == [] then None else MergeInto(a[0], a[1..], idsOf, absorb))
  {
    var a := Answers(ps, outs, order, t.scheme);
    if a != [] {
      MergeAllHead(a, idsOf, absorb);
    }
  }

  /** When no later answer shares an id with it, the highest-priority answer
    * is the result unchanged. */
  lemma LookupUnmergedHead<T>(ps: seq<Provider>, outs: seq<Outcome<T>>, order: seq<nat>, t: IdType,
                              idsOf: T -> seq<IdType>, absorb: (T, T) -> Option<T>)
    requires |outs| == |ps| && IsPriorityOrder(ps, order) && !AskedFatal(ps, outs, t.scheme)
    requires var a := Answers(ps, outs, order, t.scheme);
      a != [] && forall k :: 1 <= k < |a| ==> !AnyMatch(idsOf(a[k]), idsOf(a[0]))
    requires MergeAll(Answers(ps, outs, order, t.scheme), idsOf, absorb).Some?
    ensures LookupId(ps, outs, order, t, idsOf, absorb) == Some(Some(Answers(ps, outs, order, t.scheme)[0]))
  {
    MergeAllKeepsHead(Answers(ps, outs, order, t.scheme), idsOf, absorb);
  }

  // ---- the three entity kinds ----

  function PlaceIds(p: Entities.PlaceData): seq<IdType> { p.mappedIds }

  /** `Place.merge` as the pass applies it: `None` when it throws. */
  function PlaceAbsorb(a: Entities.PlaceData, o: Entities.PlaceData): Option<Entities.PlaceData>
  {
    if Entities.PlaceMergeFails(a, o) then None else Some(Entities.PlaceMerged(a, o))
  }

  function CorporateIds(c: Entities.CorporateData): seq<IdType> { c.mappedIds }

  function CorporateAbsorb(a: Entities.CorporateData, o: Entities.CorporateData): Option<Entities.CorporateData>
  {
    if Entities.CorporateMergeFails(a, o) then None else Some(Entities.CorporateMerged(a, o))
  }

  function PersonIds(p: Entities.PersonData): seq<IdType> { p.mappedIds }

  function PersonAbsorb(a: Entities.PersonData, o: Entities.PersonData): Option<Entities.PersonData>
  {
    if Entities.PersonMergeFails(a, o) then None else Some(Entities.PersonMerged(a, o))
  }

  /** Place and corporate merges leave the ids alone, so the places and
    * corporates `suggest` returns share no id with one another. */
  lemma SuggestedPlacesSeparate(ps: seq<Provider>, outs: seq<Outcome<seq<Entities.PlaceData>>>, order: seq<nat>)
    requires |outs| == |ps| && IsPriorityOrder(ps, order)
    requires Suggest(ps, outs, order, PlaceIds, PlaceAbsorb).Some?
    ensures var m := Suggest(ps, outs, order, PlaceIds, PlaceAbsorb).value;
      forall i, j :: 0 <= i < j < |m| ==> !AnyMatch(m[i].mappedIds, m[j].mappedIds)
  {
    forall a, o | PlaceAbsorb(a, o).Some? ensures PlaceIds(PlaceAbsorb(a, o).value) == PlaceIds(a) {
      Entities.PlaceMergeFields(a, o);
    }
    MergeAllSeparates(Gather(outs, order), PlaceIds, PlaceAbsorb);
  }

  lemma SuggestedCorporatesSeparate(ps: seq<Provider>, outs: seq<Outcome<seq<Entities.CorporateData>>>, order: seq<nat>)
    requires |outs| == |ps| && IsPriorityOrder(ps, order)
    requires Suggest(ps, outs, order, CorporateIds, CorporateAbsorb).Some?
    ensures var m := Suggest(ps, outs, order, CorporateIds, CorporateAbsorb).value;
      forall i, j :: 0 <= i < j < |m| ==> !AnyMatch(m[i].mappedIds, m[j].mappedIds)
  {
    forall a, o | CorporateAbsorb(a, o).Some? ensures CorporateIds(CorporateAbsorb(a, o).value) == CorporateIds(a) {
      Entities.CorporateMergeFields(a, o);
    }
    MergeAllSeparates(Gather(outs, order), CorporateIds, CorporateAbsorb);
  }

  /** A person merge keeps the receiver's ids and adds the other's, so a
    * person the pass accepted keeps every id it came with. */
  lemma PersonAbsorbGrowsIds(a: Entities.PersonData, o: Entities.PersonData)
    requires PersonAbsorb(a, o).Some?
    ensures var ids := PersonAbsorb(a, o).value.mappedIds;
      (forall k :: 0 <= k < |a.mappedIds| ==> a.mappedIds[k] in ids) &&
      (forall k :: 0 <= k < |o.mappedIds| ==> o.mappedIds[k] in ids)
  {
    Entities.PersonMergeIds(a, o);
    var ids := PersonAbsorb(a, o).value.mappedIds;
    assert ids[..|a.mappedIds|] == a.mappedIds;
    forall k | 0 <= k < |a.mappedIds| ensures a.mappedIds[k] in ids {
      assert ids[k] == a.mappedIds[k];
    }
  }
}
