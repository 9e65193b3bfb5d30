/** The document mapper and store of `IndexManager`: an entity becomes a
  * document (a class-name field plus one field per annotated getter value
  * and per referenced entity); documents are added or replaced by the
  * entity's key term. Reflection is replaced by explicit descriptors, and
  * the Lucene index by a sequence of documents. */
module Index {
  import opened Wrappers
  import opened JavaStrings
  import opened ObjectTools

  // ---- the @Field annotation ----

  /** `@Field`: the explicit field name ("" derives it from the getter), and
    * the index, analyze and store flags. The adapter is applied before a
    * value reaches the mapper (see `Value`). */
  datatype FieldSpec = FieldSpec(name: string, index: bool, analyze: bool, store: bool)

  /** The annotation's defaults: derived name, indexed, not analyzed, not
    * stored. */
  const DefaultSpec := FieldSpec("", true, false, false)

  // ---- documents ----

  /** A Lucene field: analyzed fields are `TextField`s, the others
    * `StringField`s. */
  datatype IndexableField = IndexableField(name: string, value: string, analyzed: bool, stored: bool)

  /** A document; `doc.add(null)` is possible, so entries may be null. */
  type Document = seq<Option<IndexableField>>

  datatype Term = Term(field: string, text: string)

  const ObjectClassField := "objectClass"

  /** A marshalled value: a `String`, or another object with its `toString`. */
  datatype Value = Text(s: string) | NonText(shown: string)

  function Shown(v: Value): string
  {
    if v.Text? then v.s else v.shown
  }

  /** What an annotated getter returned, after the adapter: null (or a value
    * the adapter mapped to null), one value, or a collection whose elements
    * were marshalled one by one. */
  datatype Content = Absent | Single(v: Value) | Many(vs: seq<Option<Value>>)

  /** An annotated getter: its method name, annotation, whether it carries
    * `@Id`, and what it returned. */
  datatype Getter = Getter(accessor: string, spec: FieldSpec, isId: bool, content: Content)

  /** An `@IdRef` getter: its method name and the reference ids of the
    * referenced entities (null where none could be built). */
  datatype RefGetter = RefGetter(accessor: string, refs: RefContent)

  datatype RefContent = NoRef | OneRef(key: Option<string>) | ManyRefs(keys: seq<Option<string>>)

  /** `buildIndexableField`: only an indexed `String` gives a field, analyzed
    * iff `analyze` and stored iff `store`; any other value gives null,
    * boxed numbers included, since their class is never primitive. */
  function BuildIndexableField(spec: FieldSpec, name: string, v: Value): (r: Option<IndexableField>)
    ensures r.Some? <==> spec.index && v.Text?
    ensures r.Some? ==> r.value == IndexableField(name, v.s, spec.analyze, spec.store)
  {
    if spec.index && v.Text? then Some(IndexableField(name, v.s, spec.analyze, spec.store)) else None
  }

  /** The method names the descriptors may use. */
  predicate GoodMethod(m: string)
  {
    Cuttable(m)
  }

  /** "<SimpleName>." followed by the explicit name or the one derived from
    * the getter (a getter without a bean prefix derives "null"). */
  function FieldName(prefix: string, accessor: string, explicit: string): (r: string)
    requires GoodMethod(accessor)
    ensures StartsWith(r, prefix)
  {
    prefix + (if explicit == [] then ConcatText(GetFieldName(accessor)) else explicit)
  }

  /** The entries one getter adds: nothing for null; one entry for a
    * value; for a collection one entry per element whose marshalled value is
    * non-null, in order. */
  function EntriesOf(spec: FieldSpec, name: string, c: Content): (r: Document)
    ensures c.Absent? ==> r == []
    ensures c.Single? ==> r == [BuildIndexableField(spec, name, c.v)]
  {
    match c
    case Absent => []
    case Single(v) => [BuildIndexableField(spec, name, v)]
    case Many(vs) => ManyEntries(spec, name, vs)
  }

  function ManyEntries(spec: FieldSpec, name: string, vs: seq<Option<Value>>): (r: Document)
    ensures |r| == NonNull(vs)
    ensures forall i :: 0 <= i < |r| && r[i].Some? ==>
      r[i].value.name == name && r[i].value.analyzed == spec.analyze && r[i].value.stored == spec.store
    ensures spec.index && (forall i :: 0 <= i < |vs| && vs[i].Some? ==> vs[i].value.Text?) ==>
      forall i :: 0 <= i < |r| ==> r[i].Some?
  {
    if vs == [] then []
    else (if vs[0].Some? then [BuildIndexableField(spec, name, vs[0].value)] else []) + ManyEntries(spec, name, vs[1..])
  }

  function NonNull<V>(vs: seq<Option<V>>): nat
  {
    if vs == [] then 0 else (if vs[0].Some? then 1 else 0) + NonNull(vs[1..])
  }

  predicate AllGood(getters: seq<Getter>, refs: seq<RefGetter>)
  {
    (forall i :: 0 <= i < |getters| ==> GoodMethod(getters[i].accessor)) &&
    (forall i :: 0 <= i < |refs| ==> GoodMethod(refs[i].accessor))
  }

  /** Every entry is named "<SimpleName>.<field>". */
  function GetterEntries(prefix: string, getters: seq<Getter>): (r: Document)
    requires forall i :: 0 <= i < |getters| ==> GoodMethod(getters[i].accessor)
    ensures forall i :: 0 <= i < |r| && r[i].Some? ==> StartsWith(r[i].value.name, prefix)
  {
    if getters == [] then []
    else
      var g := getters[0];
      EntriesOf(g.spec, FieldName(prefix, g.accessor, g.spec.name), g.content) + GetterEntries(prefix, getters[1..])
  }

  /** A reference is stored as a non-analyzed, stored string field. */
  function RefEntry(name: string, key: Option<string>): Document
  {
    if key.Some? then [Some(IndexableField(name, key.value, false, true))] else []
  }

  function RefKeyEntries(name: string, keys: seq<Option<string>>): (r: Document)
    ensures |r| == NonNull(keys)
    ensures forall i :: 0 <= i < |r| ==> r[i].Some? && r[i].value.name == name && !r[i].value.analyzed && r[i].value.stored
  {
    if keys == [] then [] else RefEntry(name, keys[0]) + RefKeyEntries(name, keys[1..])
  }

  function RefContentEntries(name: string, c: RefContent): (r: Document)
    ensures forall i :: 0 <= i < |r| ==> r[i].Some? && r[i].value.name == name && !r[i].value.analyzed && r[i].value.stored
  {
    match c
    case NoRef => []
    case OneRef(k) => RefEntry(name, k)
    case ManyRefs(ks) => RefKeyEntries(name, ks)
  }

  /** Every reference entry is a stored, non-analyzed field named
    * "<SimpleName>.<field>". */
  function RefEntries(prefix: string, refs: seq<RefGetter>): (r: Document)
    requires forall i :: 0 <= i < |refs| ==> GoodMethod(refs[i].accessor)
    ensures forall i :: 0 <= i < |r| ==> r[i].Some? && StartsWith(r[i].value.name, prefix) && !r[i].value.analyzed && r[i].value.stored
  {
    if refs == [] then []
    else RefContentEntries(FieldName(prefix, refs[0].accessor, ""), refs[0].refs) + RefEntries(prefix, refs[1..])
  }

  /** `buildDocument`: the class-name field, the getters' fields, the
    * references. */
  function DocumentOf(className: string, simpleName: string, getters: seq<Getter>, refs: seq<RefGetter>): Document
    requires AllGood(getters, refs)
  {
    [Some(IndexableField(ObjectClassField, className, false, true))]
      + GetterEntries(simpleName + ".", getters) + RefEntries(simpleName + ".", refs)
  }

  /** Lucene reads every field of a document it writes, so a document
    * holding a null entry makes `addDocument` and `updateDocument` throw
    * before anything is changed. */
  predicate Writable(doc: Document)
  {
    None !in doc
  }

  /** A getter on an indexed field whose every value is a `String`. */
  predicate TextOnly(g: Getter)
  {
    g.spec.index &&
    (g.content.Single? ==> g.content.v.Text?) &&
    (g.content.Many? ==> forall i :: 0 <= i < |g.content.vs| && g.content.vs[i].Some? ==> g.content.vs[i].value.Text?)
  }

  lemma {:induction false} GetterEntriesWritable(prefix: string, getters: seq<Getter>)
    requires forall i :: 0 <= i < |getters| ==> GoodMethod(getters[i].accessor) && TextOnly(getters[i])
    ensures Writable(GetterEntries(prefix, getters))
  {
    if getters != [] {
      GetterEntriesWritable(prefix, getters[1..]);
      var g := getters[0];
      var e := EntriesOf(g.spec, FieldName(prefix, g.accessor, g.spec.name), g.content);
      assert TextOnly(g);
      assert forall i :: 0 <= i < |e| ==> e[i].Some?;
    }
  }

  /** A document made of text-only getters and references is writable. */
  lemma DocumentWritable(className: string, simpleName: string, getters: seq<Getter>, refs: seq<RefGetter>)
    requires AllGood(getters, refs)
    requires forall i :: 0 <= i < |getters| ==> TextOnly(getters[i])
    ensures Writable(DocumentOf(className, simpleName, getters, refs))
  {
    GetterEntriesWritable(simpleName + ".", getters);
    var r := RefEntries(simpleName + ".", refs);
    assert forall i :: 0 <= i < |r| ==> r[i].Some?;
  }

  lemma ManyEntriesStep(spec: FieldSpec, name: string, vs: seq<Option<Value>>, j: nat)
    requires j < |vs|
    ensures ManyEntries(spec, name, vs[j..]) ==
      (if vs[j].Some? then [BuildIndexableField(spec, name, vs[j].value)] else []) + ManyEntries(spec, name, vs[j + 1..])
  {
    assert vs[j..][1..] == vs[j + 1..];
  }

  /** The elements of a collection, added one by one. */
  method AddValues(doc: Document, spec: FieldSpec, name: string, vs: seq<Option<Value>>) returns (r: Document)
    ensures r == doc + ManyEntries(spec, name, vs)
  {
    r := doc;
    var j := 0;
    while j < |vs|
      invariant 0 <= j <= |vs|
      invariant r + ManyEntries(spec, name, vs[j..]) == doc + ManyEntries(spec, name, vs)
    {
      ghost var here := if vs[j].Some? then [BuildIndexableField(spec, name, vs[j].value)] else [];
      ghost var rest := ManyEntries(spec, name, vs[j + 1..]);
      ManyEntriesStep(spec, name, vs, j);
      ghost var r0 := r;
      if vs[j].Some? {
        r := r + [BuildIndexableField(spec, name, vs[j].value)];
      }
      assert r == r0 + here;
      assert r + rest == r0 + (here + rest);
      j := j + 1;
    }
    assert vs[j..] == [];
  }

  /** The entries of one getter. */
  method AddGetter(doc: Document, prefix: string, g: Getter) returns (r: Document)
    requires GoodMethod(g.accessor)
    ensures r == doc + EntriesOf(g.spec, FieldName(prefix, g.accessor, g.spec.name), g.content)
  {
    var name := FieldName(prefix, g.accessor, g.spec.name);
    match g.content {
      case Absent =>
        r := doc;
      case Single(v) =>
        r := doc + [BuildIndexableField(g.spec, name, v)];
      case Many(vs) =>
        r := AddValues(doc, g.spec, name, vs);
    }
  }

  lemma RefKeyEntriesStep(name: string, keys: seq<Option<string>>, j: nat)
    requires j < |keys|
    ensures RefKeyEntries(name, keys[j..]) == RefEntry(name, keys[j]) + RefKeyEntries(name, keys[j + 1..])
  {
    assert keys[j..][1..] == keys[j + 1..];
  }

  /** The reference ids of a collection, added one by one. */
  method AddKeys(doc: Document, name: string, keys: seq<Option<string>>) returns (r: Document)
    ensures r == doc + RefKeyEntries(name, keys)
  {
    r := doc;
    var j := 0;
    while j < |keys|
      invariant 0 <= j <= |keys|
      invariant r + RefKeyEntries(name, keys[j..]) == doc + RefKeyEntries(name, keys)
    {
      ghost var rest := RefKeyEntries(name, keys[j + 1..]);
      RefKeyEntriesStep(name, keys, j);
      ghost var r0 := r;
      if keys[j].Some? {
        r := r + [Some(IndexableField(name, keys[j].value, false, true))];
      }
      assert r == r0 + RefEntry(name, keys[j]);
      assert r + rest == r0 + (RefEntry(name, keys[j]) + rest);
      j := j + 1;
    }
    assert keys[j..] == [];
  }

  /** The entries of one reference getter. */
  method AddRef(doc: Document, prefix: string, g: RefGetter) returns (r: Document)
    requires GoodMethod(g.accessor)
    ensures r == doc + RefContentEntries(FieldName(prefix, g.accessor, ""), g.refs)
  {
    var name := FieldName(prefix, g.accessor, "");
    match g.refs {
      case NoRef =>
        r := doc;
      case OneRef(key) =>
        r := doc;
        if key.Some? {
          r := r + [Some(IndexableField(name, key.value, false, true))];
        }
      case ManyRefs(keys) =>
        r := AddKeys(doc, name, keys);
    }
  }

  lemma GetterEntriesStep(prefix: string, getters: seq<Getter>, i: nat)
    requires i < |getters| && forall j :: 0 <= j < |getters| ==> GoodMethod(getters[j].accessor)
    ensures var g := getters[i];
      GetterEntries(prefix, getters[i..]) ==
        EntriesOf(g.spec, FieldName(prefix, g.accessor, g.spec.name), g.content) + GetterEntries(prefix, getters[i + 1..])
  {
    assert getters[i..][1..] == getters[i + 1..];
  }

  lemma RefEntriesStep(prefix: string, refs: seq<RefGetter>, k: nat)
    requires k < |refs| && forall j :: 0 <= j < |refs| ==> GoodMethod(refs[j].accessor)
    ensures RefEntries(prefix, refs[k..]) ==
      RefContentEntries(FieldName(prefix, refs[k].accessor, ""), refs[k].refs) + RefEntries(prefix, refs[k + 1..])
  {
    assert refs[k..][1..] == refs[k + 1..];
  }

  lemma Regroup(a: Document, b: Document, c: Document)
    ensures (a + b) + c == a + (b + c)
  {
  }

  /** The loop over the annotated getters. */
  method AddGetters(doc: Document, prefix: string, getters: seq<Getter>) returns (r: Document)
    requires forall i :: 0 <= i < |getters| ==> GoodMethod(getters[i].accessor)
    ensures r == doc + GetterEntries(prefix, getters)
  {
    r := doc;
    var i := 0;
    while i < |getters|
      invariant 0 <= i <= |getters|
      invariant r + GetterEntries(prefix, getters[i..]) == doc + GetterEntries(prefix, getters)
    {
      var g := getters[i];
      GetterEntriesStep(prefix, getters, i);
      ghost var rest := GetterEntries(prefix, getters[i + 1..]);
      ghost var here := EntriesOf(g.spec, FieldName(prefix, g.accessor, g.spec.name), g.content);
      ghost var r0 := r;
      r := AddGetter(r, prefix, g);
      Regroup(r0, here, rest);
      i := i + 1;
    }
    assert getters[i..] == [];
  }

  /** The loop over the reference getters. */
  method AddRefs(doc: Document, prefix: string, refs: seq<RefGetter>) returns (r: Document)
    requires forall i :: 0 <= i < |refs| ==> GoodMethod(refs[i].accessor)
    ensures r == doc + RefEntries(prefix, refs)
  {
    r := doc;
    var k := 0;
    while k < |refs|
      invariant 0 <= k <= |refs|
      invariant r + RefEntries(prefix, refs[k..]) == doc + RefEntries(prefix, refs)
    {
      ghost var rest := RefEntries(prefix, refs[k + 1..]);
      ghost var here := RefContentEntries(FieldName(prefix, refs[k].accessor, ""), refs[k].refs);
      RefEntriesStep(prefix, refs, k);
      ghost var r0 := r;
      r := AddRef(r, prefix, refs[k]);
      Regroup(r0, here, rest);
      k := k + 1;
    }
    assert refs[k..] == [];
  }

  /** `buildDocument`: the class-name field, then the getters' and the
    * references' fields. */
  method BuildDocument(className: string, simpleName: string, getters: seq<Getter>, refs: seq<RefGetter>)
    returns (doc: Document)
    requires AllGood(getters, refs)
    ensures doc == DocumentOf(className, simpleName, getters, refs)
  {
    var prefix := simpleName + ".";
    doc := [Some(IndexableField(ObjectClassField, className, false, true))];
    doc := AddGetters(doc, prefix, getters);
    doc := AddRefs(doc, prefix, refs);
  }

  /** The field names the getters write, in order. */
  function FieldNames(prefix: string, getters: seq<Getter>): (r: seq<string>)
    requires forall i :: 0 <= i < |getters| ==> GoodMethod(getters[i].accessor)
    ensures |r| == |getters|
    ensures forall i :: 0 <= i < |getters| ==> r[i] == FieldName(prefix, getters[i].accessor, getters[i].spec.name)
  {
    if getters == [] then [] else [FieldName(prefix, getters[0].accessor, getters[0].spec.name)] + FieldNames(prefix, getters[1..])
  }

  /** The field names the reference getters write. */
  function RefNames(prefix: string, refs: seq<RefGetter>): (r: seq<string>)
    requires forall i :: 0 <= i < |refs| ==> GoodMethod(refs[i].accessor)
    ensures |r| == |refs|
    ensures forall i :: 0 <= i < |refs| ==> r[i] == FieldName(prefix, refs[i].accessor, "")
  {
    if refs == [] then [] else [FieldName(prefix, refs[0].accessor, "")] + RefNames(prefix, refs[1..])
  }

  /** A document holds no field but the class name and those its getters
    * name. */
  lemma {:induction false} GetterEntriesNamed(prefix: string, getters: seq<Getter>)
    requires forall i :: 0 <= i < |getters| ==> GoodMethod(getters[i].accessor)
    ensures forall i :: 0 <= i < |GetterEntries(prefix, getters)| && GetterEntries(prefix, getters)[i].Some? ==>
      GetterEntries(prefix, getters)[i].value.name in FieldNames(prefix, getters)
  {
    if getters != [] {
      GetterEntriesNamed(prefix, getters[1..]);
      var g := getters[0];
      var name := FieldName(prefix, g.accessor, g.spec.name);
      var head := EntriesOf(g.spec, name, g.content);
      assert forall i :: 0 <= i < |head| && head[i].Some? ==> head[i].value.name == name;
      assert GetterEntries(prefix, getters) == head + GetterEntries(prefix, getters[1..]);
      assert FieldNames(prefix, getters) == [name] + FieldNames(prefix, getters[1..]);
    }
  }

  lemma {:induction false} RefEntriesNamed(prefix: string, refs: seq<RefGetter>)
    requires forall i :: 0 <= i < |refs| ==> GoodMethod(refs[i].accessor)
    ensures forall i :: 0 <= i < |RefEntries(prefix, refs)| ==> RefEntries(prefix, refs)[i].value.name in RefNames(prefix, refs)
  {
    if refs != [] {
      RefEntriesNamed(prefix, refs[1..]);
      var name := FieldName(prefix, refs[0].accessor, "");
      var head := RefContentEntries(name, refs[0].refs);
      var rest := RefEntries(prefix, refs[1..]);
      var d := RefEntries(prefix, refs);
      assert d == head + rest;
      assert RefNames(prefix, refs) == [name] + RefNames(prefix, refs[1..]);
      forall i | 0 <= i < |d|
        ensures d[i].value.name in RefNames(prefix, refs)
      {
        var names := RefNames(prefix, refs);
        if i < |head| {
          assert d[i] == head[i] && names[0] == name;
          assert d[i].value.name == names[0];
        } else {
          var j := i - |head|;
          assert d[i] == rest[j];
          assert rest[j].value.name in RefNames(prefix, refs[1..]);
          assert forall x :: x in RefNames(prefix, refs[1..]) ==> x in names;
        }
      }
    }
  }

  lemma DocumentNamed(className: string, simpleName: string, getters: seq<Getter>, refs: seq<RefGetter>)
    requires AllGood(getters, refs)
    ensures DocumentOf(className, simpleName, getters, refs)[0] == Some(IndexableField(ObjectClassField, className, false, true))
    ensures forall i :: 1 <= i < |DocumentOf(className, simpleName, getters, refs)| && DocumentOf(className, simpleName, getters, refs)[i].Some? ==>
      DocumentOf(className, simpleName, getters, refs)[i].value.name in FieldNames(simpleName + ".", getters) + RefNames(simpleName + ".", refs)
  {
    var prefix := simpleName + ".";
    GetterEntriesNamed(prefix, getters);
    RefEntriesNamed(prefix, refs);
    var g := GetterEntries(prefix, getters);
    var r := RefEntries(prefix, refs);
    var d := DocumentOf(className, simpleName, getters, refs);
    var names := FieldNames(prefix, getters) + RefNames(prefix, refs);
    assert d == [d[0]] + g + r;
    forall i | 1 <= i < |d| && d[i].Some?
      ensures d[i].value.name in names
    {
      if i <= |g| {
        assert d[i] == g[i - 1];
        assert forall x :: x in FieldNames(prefix, getters) ==> x in names;
      } else {
        assert d[i] == r[i - 1 - |g|];
        assert forall x :: x in RefNames(prefix, refs) ==> x in names;
      }
    }
  }

  /** Every non-null element of an indexed string collection is in the
    * document. */
  lemma {:induction false} ManyEntriesHave(spec: FieldSpec, name: string, vs: seq<Option<Value>>, k: nat, s: string)
    requires spec.index && k < |vs| && vs[k] == Some(Text(s))
    ensures Some(IndexableField(name, s, spec.analyze, spec.store)) in ManyEntries(spec, name, vs)
  {
    var head := if vs[0].Some? then [BuildIndexableField(spec, name, vs[0].value)] else [];
    assert ManyEntries(spec, name, vs) == head + ManyEntries(spec, name, vs[1..]);
    if k > 0 {
      ManyEntriesHave(spec, name, vs[1..], k - 1, s);
    }
  }

  /** The names of the getters that write analyzed (searchable by words)
    * fields. */
  function AnalyzedFieldNames(prefix: string, getters: seq<Getter>): (r: seq<string>)
    requires forall i :: 0 <= i < |getters| ==> GoodMethod(getters[i].accessor)
    ensures forall k :: 0 <= k < |getters| && getters[k].spec.index && getters[k].spec.analyze ==>
      FieldName(prefix, getters[k].accessor, getters[k].spec.name) in r
    ensures forall x :: x in r ==>
      (exists k :: 0 <= k < |getters| && getters[k].spec.index && getters[k].spec.analyze &&
        x == FieldName(prefix, getters[k].accessor, getters[k].spec.name))
  {
    if getters == [] then []
    else
      var g := getters[0];
      var rest := AnalyzedFieldNames(prefix, getters[1..]);
      assert forall k :: 1 <= k < |getters| ==> getters[k] == getters[1..][k - 1];
      (if g.spec.index && g.spec.analyze then [FieldName(prefix, g.accessor, g.spec.name)] else []) + rest
  }

  // ---- the key term ----

  /** The key term of one `@Id` getter: for a collection, the first element
    * with a non-null marshalled value. */
  function IdTermOf(name: string, c: Content): (r: Option<Term>)
    ensures r.Some? ==> r.value.field == name
  {
    match c
    case Absent => None
    case Single(v) => Some(Term(name, Shown(v)))
    case Many(vs) => FirstTerm(name, vs)
  }

  function FirstTerm(name: string, vs: seq<Option<Value>>): (r: Option<Term>)
    ensures r.Some? ==> r.value.field == name
  {
    if vs == [] then None
    else if vs[0].Some? then Some(Term(name, Shown(vs[0].value)))
    else FirstTerm(name, vs[1..])
  }

  /** `buildIdTerm`: the term of the first `@Id` getter. `None` is the
    * failure of the search with a null term, which the source hits when
    * there is no `@Id` getter or its first one yields no id. */
  function IdTerm(simpleName: string, getters: seq<Getter>): (r: Option<Term>)
    requires forall i :: 0 <= i < |getters| ==> GoodMethod(getters[i].accessor)
    ensures r.Some? ==> StartsWith(r.value.field, simpleName + ".")
    ensures (forall i :: 0 <= i < |getters| ==> !getters[i].isId) ==> r.None?
  {
    if getters == [] then None
    else if getters[0].isId then
      IdTermOf(FieldName(simpleName + ".", getters[0].accessor, getters[0].spec.name), getters[0].content)
    else IdTerm(simpleName, getters[1..])
  }

  /** A document holds a field that a term query on that term finds
    * (analyzed fields are tokenized and are not matched exactly). */
  predicate Matches(doc: Document, t: Term)
  {
    exists i :: 0 <= i < |doc| && doc[i].Some? && doc[i].value.name == t.field && doc[i].value.value == t.text
      && !doc[i].value.analyzed
  }

  lemma {:induction false} FirstTermInEntries(spec: FieldSpec, name: string, vs: seq<Option<Value>>)
    requires spec.index && !spec.analyze && FirstTerm(name, vs).Some?
    requires forall i :: 0 <= i < |vs| && vs[i].Some? ==> vs[i].value.Text?
    ensures Matches(ManyEntries(spec, name, vs), FirstTerm(name, vs).value)
  {
    var d := ManyEntries(spec, name, vs);
    if vs[0].Some? {
      assert d[0] == BuildIndexableField(spec, name, vs[0].value);
    } else {
      FirstTermInEntries(spec, name, vs[1..]);
      assert d == ManyEntries(spec, name, vs[1..]);
    }
  }

  /** An entity is found by its own key: the document built for it matches
    * the key term, when the `@Id` getter is indexed, not analyzed and
    * marshals to strings. */
  lemma {:induction false} DocumentMatchesIdTerm(className: string, simpleName: string, getters: seq<Getter>, refs: seq<RefGetter>)
    requires AllGood(getters, refs) && IdTerm(simpleName, getters).Some?
    requires forall i :: 0 <= i < |getters| && getters[i].isId ==>
      getters[i].spec.index && !getters[i].spec.analyze && AllText(getters[i].content)
    ensures Matches(DocumentOf(className, simpleName, getters, refs), IdTerm(simpleName, getters).value)
  {
    GetterEntriesMatch(simpleName, getters);
    MatchesInside([Some(IndexableField(ObjectClassField, className, false, true))],
      GetterEntries(simpleName + ".", getters), RefEntries(simpleName + ".", refs), IdTerm(simpleName, getters).value);
  }

  lemma MatchesInside(a: Document, g: Document, b: Document, t: Term)
    requires Matches(g, t)
    ensures Matches(a + g + b, t)
  {
    var i :| 0 <= i < |g| && g[i].Some? && g[i].value.name == t.field && g[i].value.value == t.text && !g[i].value.analyzed;
    assert (a + g + b)[|a| + i] == g[i];
  }

  predicate AllText(c: Content)
  {
    match c
    case Absent => true
    case Single(v) => v.Text?
    case Many(vs) => forall i :: 0 <= i < |vs| && vs[i].Some? ==> vs[i].value.Text?
  }

  lemma {:induction false} GetterEntriesMatch(simpleName: string, getters: seq<Getter>)
    requires forall i :: 0 <= i < |getters| ==> GoodMethod(getters[i].accessor)
    requires IdTerm(simpleName, getters).Some?
    requires forall i :: 0 <= i < |getters| && getters[i].isId ==>
      getters[i].spec.index && !getters[i].spec.analyze && AllText(getters[i].content)
    ensures Matches(GetterEntries(simpleName + ".", getters), IdTerm(simpleName, getters).value)
  {
    var prefix := simpleName + ".";
    var g := getters[0];
    var name := FieldName(prefix, g.accessor, g.spec.name);
    var head := EntriesOf(g.spec, name, g.content);
    var rest := GetterEntries(prefix, getters[1..]);
    assert GetterEntries(prefix, getters) == head + rest;
    if g.isId {
      var t := IdTerm(simpleName, getters).value;
      if g.content.Many? {
        FirstTermInEntries(g.spec, name, g.content.vs);
      } else {
        assert head[0] == BuildIndexableField(g.spec, name, g.content.v);
      }
      var i :| 0 <= i < |head| && head[i].Some? && head[i].value.name == t.field && head[i].value.value == t.text && !head[i].value.analyzed;
      assert (head + rest)[i] == head[i];
    } else {
      GetterEntriesMatch(simpleName, getters[1..]);
      var t := IdTerm(simpleName, getters).value;
      var i :| 0 <= i < |rest| && rest[i].Some? && rest[i].value.name == t.field && rest[i].value.value == t.text && !rest[i].value.analyzed;
      assert (head + rest)[|head| + i] == rest[i];
    }
  }

  // ---- references ----

  /** `buildReferenceId`: "<RefSimpleName>.mappedIds:" followed by the
    * referenced entity's first marshalled id. */
  function ReferenceId(refSimpleName: string, firstId: string): (r: string)
    ensures |r| == |refSimpleName| + 11 + |firstId|
    ensures r[|refSimpleName| + 10] == ':' && r[|refSimpleName| + 11..] == firstId
    ensures ':' !in refSimpleName ==> ':' !in r[..|refSimpleName| + 10]
  {
    refSimpleName + ".mappedIds" + ":" + firstId
  }

  /** `split(":", 2)` of a stored reference: the text before the first colon
    * and the rest; without a colon the source indexes past the array. */
  function SplitReference(s: string): (r: Option<Term>)
    ensures r.Some? ==> ':' !in r.value.field && s == r.value.field + ":" + r.value.text
    ensures r.None? <==> ':' !in s
  {
    var i := IndexOf(s, ':');
    if i < 0 then None
    else
      assert s == s[..i] + ":" + s[i + 1..];
      Some(Term(s[..i], s[i + 1..]))
  }

  /** Splitting a stored reference gives back the referenced entity's key
    * term, even though the id itself contains a colon. */
  lemma SplitReferenceId(refSimpleName: string, firstId: string)
    requires ':' !in refSimpleName
    ensures SplitReference(ReferenceId(refSimpleName, firstId)) == Some(Term(refSimpleName + ".mappedIds", firstId))
  {
    var f := refSimpleName + ".mappedIds";
    assert ':' !in f by {
      assert forall k :: 0 <= k < |f| ==> f[k] == (if k < |refSimpleName| then refSimpleName[k] else ".mappedIds"[k - |refSimpleName|]);
    }
    var s := ReferenceId(refSimpleName, firstId);
    assert s == f + ":" + firstId;
    var r := SplitReference(s);
    assert r.Some?;
    SplitUnique(f, firstId, r.value.field, r.value.text);
  }

  lemma SplitUnique(f: string, t: string, f2: string, t2: string)
    requires ':' !in f && ':' !in f2 && f + ":" + t == f2 + ":" + t2
    ensures f == f2 && t == t2
  {
    var s := f + ":" + t;
    assert s[|f|] == ':' && s[|f2|] == ':';
    assert |f| == |f2| by {
      assert forall k :: 0 <= k < |f| ==> s[k] == f[k];
      assert forall k :: 0 <= k < |f2| ==> s[k] == f2[k];
    }
    assert f == s[..|f|] && f2 == s[..|f2|];
    assert t == s[|f| + 1..] && t2 == s[|f2| + 1..];
  }

  /** The documents a term query finds, in index order, at most `limit`. */
  function Hits(docs: seq<Document>, t: Term, limit: nat): (r: seq<Document>)
    ensures |r| <= limit
    ensures forall i :: 0 <= i < |r| ==> Matches(r[i], t) && r[i] in docs
    ensures limit > 0 && r == [] ==> forall i :: 0 <= i < |docs| ==> !Matches(docs[i], t)
  {
    if docs == [] || limit == 0 then []
    else if Matches(docs[0], t) then [docs[0]] + Hits(docs[1..], t, limit - 1)
    else Hits(docs[1..], t, limit)
  }

  /** Resolving a single reference: the first document found, or null when
    * the key resolves to nothing. */
  function ResolveOne(docs: seq<Document>, stored: string): (r: Option<Document>)
    ensures SplitReference(stored).None? ==> r.None?
    ensures r.Some? ==> r.value in docs && Matches(r.value, SplitReference(stored).value)
  {
    match SplitReference(stored)
    case None => None
    case Some(t) => var h := Hits(docs, t, 1); if h == [] then None else Some(h[0])
  }

  /** Resolving a collection of references: unresolvable keys are dropped. */
  function ResolveMany(docs: seq<Document>, stored: seq<string>): (r: seq<Document>)
    ensures |r| <= |stored|
    ensures forall i :: 0 <= i < |r| ==> r[i] in docs
  {
    if stored == [] then []
    else
      var one := ResolveOne(docs, stored[0]);
      (if one.Some? then [one.value] else []) + ResolveMany(docs, stored[1..])
  }

  /** A stored reference resolves exactly when the index holds a document
    * under the referenced entity's key, and then to such a document. */
  lemma ResolveStoredReference(docs: seq<Document>, refSimpleName: string, firstId: string)
    requires ':' !in refSimpleName
    ensures var key := Term(refSimpleName + ".mappedIds", firstId);
      var r := ResolveOne(docs, ReferenceId(refSimpleName, firstId));
      (r.Some? <==> Exists(docs, key)) && (r.Some? ==> r.value in docs && Matches(r.value, key))
  {
    var key := Term(refSimpleName + ".mappedIds", firstId);
    SplitReferenceId(refSimpleName, firstId);
  }

  /** Every reference of a collection that resolves contributes its
    * document. */
  lemma {:induction false} ResolveManyKeeps(docs: seq<Document>, stored: seq<string>, k: nat)
    requires k < |stored| && ResolveOne(docs, stored[k]).Some?
    ensures ResolveOne(docs, stored[k]).value in ResolveMany(docs, stored)
  {
    if k > 0 {
      assert stored[1..][k - 1] == stored[k];
      ResolveManyKeeps(docs, stored[1..], k - 1);
    }
  }

  // ---- the store ----

  /** Documents not matching `t`. */
  function Without(docs: seq<Document>, t: Term): (r: seq<Document>)
    ensures forall i :: 0 <= i < |r| ==> !Matches(r[i], t) && r[i] in docs
    ensures forall i :: 0 <= i < |docs| && !Matches(docs[i], t) ==> docs[i] in r
  {
    if docs == [] then []
    else if Matches(docs[0], t) then Without(docs[1..], t)
    else [docs[0]] + Without(docs[1..], t)
  }

  predicate Exists(committed: seq<Document>, t: Term)
    ensures Exists(committed, t) <==> Hits(committed, t, 1) != []
  {
    var h := Hits(committed, t, 1);
    assert h != [] ==> h[0] in committed && Matches(h[0], t);
    exists i :: 0 <= i < |committed| && Matches(committed[i], t)
  }

  /** `saveOrUpdate` on the writer's documents: added when the committed
    * index has no document with the key, else replacing every document with
    * the key. */
  function SaveOrUpdateDocs(docs: seq<Document>, committed: seq<Document>, key: Term, doc: Document): seq<Document>
  {
    if !Exists(committed, key) then docs + [doc] else Without(docs, key) + [doc]
  }

  /** The writer's documents after saving each item in order; `None` when
    * an item's document is not writable, which ends `set` with an
    * exception. */
  function SaveAllDocs(docs: seq<Document>, committed: seq<Document>, items: seq<(Term, Document)>): (r: Option<seq<Document>>)
    ensures r.None? ==> exists i :: 0 <= i < |items| && !Writable(items[i].1)
    ensures (forall i :: 0 <= i < |items| ==> Writable(items[i].1)) ==> r.Some?
    decreases |items|
  {
    if items == [] then Some(docs)
    else if !Writable(items[0].1) then None
    else
      var r := SaveAllDocs(SaveOrUpdateDocs(docs, committed, items[0].0, items[0].1), committed, items[1..]);
      assert r.None? ==> exists i :: 1 <= i < |items| && !Writable(items[i].1) by {
        if r.None? {
          var j :| 0 <= j < |items[1..]| && !Writable(items[1..][j].1);
          assert items[1..][j] == items[j + 1];
        }
      }
      r
  }

  /** The number of documents a term finds. */
  function Count(docs: seq<Document>, t: Term): nat
  {
    if docs == [] then 0 else (if Matches(docs[0], t) then 1 else 0) + Count(docs[1..], t)
  }

  lemma {:induction false} CountWithout(docs: seq<Document>, t: Term)
    ensures Count(Without(docs, t), t) == 0
  {
    if docs != [] {
      CountWithout(docs[1..], t);
      if !Matches(docs[0], t) {
        assert ([docs[0]] + Without(docs[1..], t))[1..] == Without(docs[1..], t);
      }
    }
  }

  lemma {:induction false} CountAppend(docs: seq<Document>, d: Document, t: Term)
    ensures Count(docs + [d], t) == Count(docs, t) + (if Matches(d, t) then 1 else 0)
  {
    if docs == [] {
      assert [d][1..] == [];
    } else {
      assert (docs + [d])[1..] == docs[1..] + [d];
      CountAppend(docs[1..], d, t);
    }
  }

  lemma {:induction false} CountZero(docs: seq<Document>, t: Term)
    requires forall i :: 0 <= i < |docs| ==> !Matches(docs[i], t)
    ensures Count(docs, t) == 0
  {
    if docs != [] {
      CountZero(docs[1..], t);
    }
  }

  /** After saving an entity whose document carries its key into a session
    * whose writer started at the committed state, the key finds exactly one
    * document, the new one. */
  lemma SaveOrUpdateOneHit(docs: seq<Document>, key: Term, doc: Document)
    requires Matches(doc, key)
    ensures var after := SaveOrUpdateDocs(docs, docs, key, doc);
      Count(after, key) == 1 && after[|after| - 1] == doc
  {
    if !Exists(docs, key) {
      CountZero(docs, key);
      CountAppend(docs, doc, key);
    } else {
      CountWithout(docs, key);
      CountAppend(Without(docs, key), doc, key);
    }
  }

  /** Within one session `exists` reads the committed index, so two new
    * entities with the same key are both added. */
  lemma SameKeyTwiceInSession(committed: seq<Document>, key: Term, d1: Document, d2: Document)
    requires !Exists(committed, key) && Matches(d1, key) && Matches(d2, key)
    ensures var r := SaveAllDocs(committed, committed, [(key, d1), (key, d2)]);
      (r.Some? <==> Writable(d1) && Writable(d2)) && (r.Some? ==> Count(r.value, key) == 2)
  {
    var items := [(key, d1), (key, d2)];
    assert items[1..] == [(key, d2)] && items[1..][1..] == [];
    if Writable(d1) && Writable(d2) {
      CountZero(committed, key);
      CountAppend(committed, d1, key);
      CountAppend(committed + [d1], d2, key);
      assert SaveOrUpdateDocs(committed, committed, key, d1) == committed + [d1];
      assert SaveOrUpdateDocs(committed + [d1], committed, key, d2) == committed + [d1] + [d2];
      assert SaveAllDocs(committed, committed, items) == SaveAllDocs(committed + [d1], committed, items[1..]);
      assert SaveAllDocs(committed + [d1], committed, items[1..]) == SaveAllDocs(committed + [d1] + [d2], committed, []);
    } else if Writable(d1) {
      assert SaveAllDocs(committed, committed, items) == SaveAllDocs(committed + [d1], committed, items[1..]);
    }
  }

  /** The index: `docs` is what the open writer holds, `committed` what
    * readers (and therefore `exists`) see. */
  class Store {
    var docs: seq<Document>
    var committed: seq<Document>

    constructor (initial: seq<Document>)
      ensures docs == initial && committed == initial
    {
      docs, committed := initial, initial;
    }

    /** `saveOrUpdate(w, obj)`, given the entity's key term and document;
      * `failed` is the exception the writer throws on a document it cannot
      * write, which leaves its documents as they were. */
    method SaveOrUpdate(key: Term, doc: Document) returns (failed: bool)
      modifies this
      ensures failed <==> !Writable(doc)
      ensures docs == if failed then old(docs) else SaveOrUpdateDocs(old(docs), old(committed), key, doc)
      ensures committed == old(committed)
    {
      failed := !Writable(doc);
      if failed {
        return;
      }
      if !Exists(committed, key) {
        docs := docs + [doc];
      } else {
        docs := Without(docs, key) + [doc];
      }
    }

    /** `set(objs)` for a list: each object saved in order, one commit at
      * the end; no references. `set(obj)` passes the object followed by its
      * distinct referenced entities. A failing save ends `set` before the
      * commit; the abandoned writer's documents are never seen again. */
    method Set(items: seq<(Term, Document)>) returns (failed: bool)
      modifies this
      ensures failed <==> SaveAllDocs(old(docs), old(committed), items).None?
      ensures !failed ==> docs == SaveAllDocs(old(docs), old(committed), items).value && committed == docs
      ensures failed ==> committed == old(committed) && docs == committed
    {
      var i := 0;
      failed := false;
      while i < |items| && !failed
        invariant 0 <= i <= |items|
        invariant committed == old(committed)
        invariant !failed ==> SaveAllDocs(docs, committed, items[i..]) == SaveAllDocs(old(docs), old(committed), items)
        invariant failed ==> SaveAllDocs(old(docs), old(committed), items).None?
      {
        assert items[i..][1..] == items[i + 1..];
        ghost var before := docs;
        failed := SaveOrUpdate(items[i].0, items[i].1);
        assert failed ==> SaveAllDocs(before, committed, items[i..]).None?;
        i := i + 1;
      }
      if failed {
        docs := committed;
      } else {
        assert items[i..] == [];
        committed := docs;
      }
    }
  }
}
