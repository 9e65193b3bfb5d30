/** `ObjectTools`: the bean-naming helpers the document mapper relies on.
  * `isGetter` and `isSetter` are modelled twice: as written in the source,
  * where their last tests are inverted, and as evidently intended. */
module ObjectTools {
  import opened Wrappers
  import opened JavaStrings

  /** A reflected method: its name, parameter types and return type
    * ("void" for none). */
  datatype MethodSig = MethodSig(name: string, params: seq<string>, returnType: string)

  const GetterPrefixes: seq<string> := ["get", "is"]
  const SetterPrefixes: seq<string> := ["set"]

  /** The first prefix of `prefixes` that `name` starts with. */
  function FirstPrefix(name: string, prefixes: seq<string>): (r: Option<string>)
    ensures r.Some? ==> r.value in prefixes && StartsWith(name, r.value)
    ensures r.None? <==> forall i :: 0 <= i < |prefixes| ==> !StartsWith(name, prefixes[i])
  {
    if prefixes == [] then None
    else if StartsWith(name, prefixes[0]) then Some(prefixes[0])
    else FirstPrefix(name, prefixes[1..])
  }

  /** A name the field-name derivation can cut: when it has a getter or
    * setter prefix, a character follows the prefix (otherwise `substring`
    * throws). */
  predicate Cuttable(name: string)
  {
    (StartsWith(name, "get") ==> |name| > 3) &&
    (!StartsWith(name, "get") && StartsWith(name, "is") ==> |name| > 2) &&
    (!StartsWith(name, "get") && !StartsWith(name, "is") && StartsWith(name, "set") ==> |name| > 3)
  }

  /** The prefix search over "get", "is", "set" in that order. */
  lemma FieldPrefix(name: string)
    ensures var p := FirstPrefix(name, GetterPrefixes + SetterPrefixes);
      p == if StartsWith(name, "get") then Some("get")
           else if StartsWith(name, "is") then Some("is")
           else if StartsWith(name, "set") then Some("set")
           else None
  {
    var ps := GetterPrefixes + SetterPrefixes;
    assert ps == ["get", "is", "set"];
    var ps1, ps2 := ps[1..], ps[1..][1..];
    assert ps1 == ["is", "set"] && ps2 == ["set"] && ps2[1..] == [];
    assert FirstPrefix(name, ps2) == if StartsWith(name, "set") then Some("set") else None;
    assert FirstPrefix(name, ps1) == if StartsWith(name, "is") then Some("is") else FirstPrefix(name, ps2);
    assert FirstPrefix(name, ps) == if StartsWith(name, "get") then Some("get") else FirstPrefix(name, ps1);
  }

  /** `getFieldName`: the first of "get", "is", "set" the name starts with
    * is stripped and the next character lower-cased; null without one. */
  function GetFieldName(name: string): (r: JString)
    requires Cuttable(name)
    ensures r.None? <==> !StartsWith(name, "get") && !StartsWith(name, "is") && !StartsWith(name, "set")
    ensures StartsWith(name, "get") ==> r == Some([ToLowerAscii(name[3])] + name[4..])
    ensures !StartsWith(name, "get") && StartsWith(name, "is") ==> r == Some([ToLowerAscii(name[2])] + name[3..])
    ensures !StartsWith(name, "get") && !StartsWith(name, "is") && StartsWith(name, "set") ==>
      r == Some([ToLowerAscii(name[3])] + name[4..])
  {
    var p := FirstPrefix(name, GetterPrefixes + SetterPrefixes);
    FieldPrefix(name);
    if p.None? then None
    else
      var n := |p.value|;
      Some([ToLowerAscii(name[n])] + name[n + 1..])
  }

  /** A getter and its setter name the same field. */
  lemma GetterSetterSameField(x: string)
    requires x != []
    ensures Cuttable("get" + x) && Cuttable("set" + x)
    ensures GetFieldName("get" + x) == GetFieldName("set" + x) == Some([ToLowerAscii(x[0])] + x[1..])
  {
    var g, s := "get" + x, "set" + x;
    assert StartsWith(g, "get") && g[3] == x[0] && g[4..] == x[1..];
    assert !StartsWith(s, "get") && !StartsWith(s, "is") && StartsWith(s, "set");
    assert s[3] == x[0] && s[4..] == x[1..];
  }

  /** `isGetter` as written: a get/is name, no parameters, and a void
    * return type. */
  predicate IsGetterAsWritten(m: MethodSig)
    ensures FirstPrefix(m.name, GetterPrefixes).Some? && |m.params| == 0 ==> (IsGetterAsWritten(m) <==> !IsGetter(m))
    ensures IsGetterAsWritten(m) ==> m.returnType == "void"
  {
    FirstPrefix(m.name, GetterPrefixes).Some? && |m.params| == 0 && m.returnType == "void"
  }

  /** `isSetter` as written: a set name and a parameter count other than one. */
  predicate IsSetterAsWritten(m: MethodSig)
    ensures FirstPrefix(m.name, SetterPrefixes).Some? ==> (IsSetterAsWritten(m) <==> !IsSetter(m))
  {
    FirstPrefix(m.name, SetterPrefixes).Some? && |m.params| != 1
  }

  /** `isGetter` as intended: a get/is name, no parameters, a value returned. */
  predicate IsGetter(m: MethodSig)
    ensures IsGetter(m) ==> (StartsWith(m.name, "get") || StartsWith(m.name, "is")) && m.params == []
    ensures IsGetter(m) ==> !IsSetter(m)
  {
    FirstPrefix(m.name, GetterPrefixes).Some? && |m.params| == 0 && m.returnType != "void"
  }

  /** `isSetter` as intended: a set name and exactly one parameter. */
  predicate IsSetter(m: MethodSig)
    ensures IsSetter(m) <==> StartsWith(m.name, "set") && |m.params| == 1
  {
    FirstPrefix(m.name, SetterPrefixes).Some? && |m.params| == 1
  }

  /** `cls.getMethod(name, params)`: the public method of that signature. */
  function FindMethod(cls: seq<MethodSig>, name: string, params: seq<string>): (r: Option<MethodSig>)
    ensures r.Some? ==> r.value in cls && r.value.name == name && r.value.params == params
    ensures r.None? ==> forall i :: 0 <= i < |cls| ==> !(cls[i].name == name && cls[i].params == params)
  {
    if cls == [] then None
    else if cls[0].name == name && cls[0].params == params then Some(cls[0])
    else FindMethod(cls[1..], name, params)
  }

  /** The thrown `NullPointerException` of `findFirst` on a null element. */
  datatype Npe = Npe

  /** `getGetter` over the given setter/getter tests: for a setter, the
    * "get" spelling only is looked up (a missing one is a null first
    * element, which `findFirst` rejects); a getter is its own getter;
    * anything else has none. */
  function GetGetterWith(cls: seq<MethodSig>, m: MethodSig, isSetter: bool, isGetter: bool): (r: Result<Option<MethodSig>, Npe>)
    ensures r.Failure? ==> isSetter
    ensures r.Success? && r.value.Some? ==>
      (!isSetter && isGetter && r.value.value == m) ||
      (isSetter && r.value.value in cls && r.value.value.params == [] && StartsWith(r.value.value.name, "get"))
  {
    if isSetter then
      var p := FirstPrefix(m.name, SetterPrefixes);
      if p.None? then Success(None)
      else
        match FindMethod(cls, "get" + m.name[|p.value|..], [])
        case None => Failure(Npe)
        case Some(g) => Success(Some(g))
    else if isGetter then Success(Some(m))
    else Success(None)
  }

  function GetGetterAsWritten(cls: seq<MethodSig>, m: MethodSig): (r: Result<Option<MethodSig>, Npe>)
    ensures r.Failure? ==> IsSetterAsWritten(m)
    ensures r.Success? && r.value.Some? && r.value.value != m ==> r.value.value in cls && StartsWith(r.value.value.name, "get")
    ensures IsGetter(m) && !IsSetterAsWritten(m) ==> r == Success(None)
  {
    GetGetterWith(cls, m, IsSetterAsWritten(m), IsGetterAsWritten(m))
  }

  function GetGetter(cls: seq<MethodSig>, m: MethodSig): (r: Result<Option<MethodSig>, Npe>)
    ensures r.Failure? ==> IsSetter(m)
    ensures r.Success? && r.value.Some? ==>
      r.value.value.params == [] && (r.value.value == m || (r.value.value in cls && StartsWith(r.value.value.name, "get")))
    ensures IsGetter(m) ==> r == Success(Some(m))
  {
    GetGetterWith(cls, m, IsSetter(m), IsGetter(m))
  }

  /** `getSetter` as intended: for a getter, "set" plus the rest of its
    * name, taking the getter's return type; a missing one fails as above. */
  function GetSetter(cls: seq<MethodSig>, m: MethodSig): (r: Result<Option<MethodSig>, Npe>)
    ensures r.Failure? ==> IsGetter(m)
    ensures r.Success? && r.value.Some? ==>
      |r.value.value.params| == 1 && (r.value.value == m || (r.value.value in cls && StartsWith(r.value.value.name, "set")))
    ensures IsSetter(m) ==> r == Success(Some(m))
  {
    if IsGetter(m) then
      var p := FirstPrefix(m.name, GetterPrefixes).value;
      match FindMethod(cls, "set" + m.name[|p|..], [m.returnType])
      case None => Failure(Npe)
      case Some(s) => Success(Some(s))
    else if IsSetter(m) then Success(Some(m))
    else Success(None)
  }

  /** As written, an ordinary getter such as `String getName()` is not a
    * getter, so `getGetter` hands the mapper null for it; and an ordinary
    * one-argument setter is not a setter. */
  lemma AsWrittenRejectsBeanMethods(cls: seq<MethodSig>, x: string, t: string)
    requires t != "void"
    ensures var getter := MethodSig("get" + x, [], t);
      !IsGetterAsWritten(getter) && GetGetterAsWritten(cls, getter) == Success(None)
    ensures !IsSetterAsWritten(MethodSig("set" + x, [t], "void"))
  {
    assert StartsWith("get" + x, "get");
    assert !StartsWith("get" + x, "set");
  }

  /** As written, a `void` getter with no parameters counts as a getter and a
    * parameterless "set" method as a setter. */
  lemma AsWrittenAcceptsOddMethods(x: string)
    ensures IsGetterAsWritten(MethodSig("get" + x, [], "void"))
    ensures IsSetterAsWritten(MethodSig("set" + x, [], "void"))
  {
    assert StartsWith("get" + x, "get");
    assert StartsWith("set" + x, "set");
  }

  /** Corrected: an ordinary getter is its own getter, and the setter found
    * for it names the same field. */
  lemma BeanGetterResolves(cls: seq<MethodSig>, x: string, t: string)
    requires t != "void" && x != []
    ensures var getter := MethodSig("get" + x, [], t);
      IsGetter(getter) && GetGetter(cls, getter) == Success(Some(getter))
    ensures var getter := MethodSig("get" + x, [], t);
      var s := GetSetter(cls, getter);
      s.Success? && s.value.Some? ==> s.value.value.name == "set" + x && GetFieldName(s.value.value.name) == GetFieldName(getter.name)
    ensures var getter := MethodSig("get" + x, [], t);
      (exists i :: 0 <= i < |cls| && cls[i] == MethodSig("set" + x, [t], "void")) ==> GetSetter(cls, getter).Success?
  {
    var g := "get" + x;
    assert StartsWith(g, "get") && !StartsWith(g, "set");
    assert g[3..] == x;
    GetterSetterSameField(x);
  }

  /** Corrected: an ordinary setter resolves to the "get" method of the same
    * field when the class has one, and fails otherwise. */
  lemma BeanSetterResolves(cls: seq<MethodSig>, x: string, t: string)
    ensures var setter := MethodSig("set" + x, [t], "void");
      IsSetter(setter) &&
      GetGetter(cls, setter) == (match FindMethod(cls, "get" + x, []) case None => Failure(Npe) case Some(g) => Success(Some(g)))
  {
    var s := "set" + x;
    assert StartsWith(s, "set") && s[3..] == x;
    assert !StartsWith(s, "get") && !StartsWith(s, "is");
  }
}
