/** The XML documentation of an assembly (Documentation.cs): an index of the `member`
    elements by their `name` attribute, and the member identifiers under which a method,
    type, property or enum value is looked up. */
module Documentation {
  import opened Wrappers
  import opened Text
  import opened Reflection

  /** A `member` element: its `name` attribute and its text value. */
  datatype MemberElement = MemberElement(Name: string, Value: string)

  /** The index the constructor builds: every element under its name, a later element
      replacing an earlier one of the same name. */
  function Index(elements: seq<MemberElement>): map<string, MemberElement>
    decreases |elements|
  {
    if elements == [] then map[]
    else
      var last := elements[|elements| - 1];
      Index(elements[..|elements| - 1])[last.Name := last]
  }

  /** A name is indexed exactly when some element carries it, and then it maps to the last
      element that does. */
  lemma {:induction false} IndexSpec(elements: seq<MemberElement>, name: string)
    ensures name in Index(elements) <==> exists i :: 0 <= i < |elements| && elements[i].Name == name
    ensures name in Index(elements) ==>
      exists i :: (0 <= i < |elements| && elements[i] == Index(elements)[name] && elements[i].Name == name &&
                   forall j :: i < j < |elements| ==> elements[j].Name != name)
    decreases |elements|
  {
    if elements != [] {
      var n := |elements| - 1;
      var init := elements[..n];
      IndexSpec(init, name);
      if elements[n].Name != name {
        if name in Index(elements) {
          var i :| 0 <= i < |init| && init[i] == Index(init)[name] && init[i].Name == name &&
            forall j :: i < j < |init| ==> init[j].Name != name;
          assert elements[i] == init[i];
        }
        if exists i :: 0 <= i < |elements| && elements[i].Name == name {
          var i :| 0 <= i < |elements| && elements[i].Name == name;
          assert init[i].Name == name;
        }
      }
    }
  }

  /** A dictionary lookup that gives null for an absent key. */
  function Lookup(index: map<string, MemberElement>, key: string): Option<MemberElement> {
    if key in index then Some(index[key]) else None
  }

  /** `ParseDocumentation`: null stays null, an element gives its text. */
  function ParseDocumentation(node: Option<MemberElement>): (r: Option<string>)
    ensures r.None? <==> node.None?
    ensures node.Some? ==> r == Some(node.value.Value)
  {
    match node
    case None => None
    case Some(e) => Some(e.Value)
  }

  /** The name `GetTypeName` gives a parameter type: a constructed generic is written as
      its definition's namespace, a dot, the definition's name cut at the first backtick, and
      its argument names, comma-separated, between braces; any other type by its full name
      (a missing name reads as the empty text). */
  function DocTypeName(t: TypeDesc): string
    decreases t
  {
    if t.IsGenericType() then
      var definition := t.Definition.value;
      var arguments := seq(|t.GenericArguments|, i requires 0 <= i < |t.GenericArguments| => DocTypeName(t.GenericArguments[i]));
      definition.Namespace.GetOr("") + "." + Before(definition.Name, '`') + "{" + Join(",", arguments) + "}"
    else t.FullName.GetOr("")
  }

  /** The names of a type and of its type arguments carry no backtick. */
  predicate NoBacktickNames(t: TypeDesc)
    decreases t
  {
    (if t.IsGenericType() then '`' !in t.Definition.value.Namespace.GetOr("") else '`' !in t.FullName.GetOr("")) &&
    forall i :: 0 <= i < |t.GenericArguments| ==> NoBacktickNames(t.GenericArguments[i])
  }

  /** The arity marks (`List`1`) are gone from a documentation type name: when no namespace
      or non-generic full name in the type holds a backtick, neither does the name. */
  lemma {:induction false} DocTypeNameHasNoArity(t: TypeDesc)
    requires NoBacktickNames(t)
    ensures '`' !in DocTypeName(t)
    decreases t
  {
    if t.IsGenericType() {
      var definition := t.Definition.value;
      var arguments := seq(|t.GenericArguments|, i requires 0 <= i < |t.GenericArguments| => DocTypeName(t.GenericArguments[i]));
      forall i | 0 <= i < |arguments| ensures '`' !in arguments[i] {
        DocTypeNameHasNoArity(t.GenericArguments[i]);
      }
      JoinAvoids(",", arguments, '`');
      var name := definition.Namespace.GetOr("") + "." + Before(definition.Name, '`') + "{" + Join(",", arguments) + "}";
      assert DocTypeName(t) == name;
    }
  }

  /** A join of parts and a separator that avoid a character avoids it too. */
  lemma {:induction false} JoinAvoids(sep: string, parts: seq<string>, c: char)
    requires c !in sep && forall i :: 0 <= i < |parts| ==> c !in parts[i]
    ensures c !in Join(sep, parts)
    decreases |parts|
  {
    if |parts| > 1 {
      JoinAvoids(sep, parts[1..], c);
      assert Join(sep, parts) == parts[0] + sep + Join(sep, parts[1..]);
    }
  }

  /** The identifier of a method: `M:`, the declaring type's full name, a dot, the method's
      name and its parameter type names, comma-separated, between parentheses. */
  function MethodKey(m: MethodDesc): string {
    var parameters := seq(|m.Parameters|, i requires 0 <= i < |m.Parameters| => DocTypeName(m.Parameters[i].ParameterType));
    "M:" + m.DeclaringType.FullName.GetOr("") + "." + m.Name + "(" + Join(",", parameters) + ")"
  }

  /** The identifier of a type: `T:` and its full name, as it is. */
  function TypeKey(t: TypeDesc): string {
    "T:" + t.FullName.GetOr("")
  }

  /** A full name with the `+` of nested types turned into dots; null is dereferenced. */
  function DottedName(t: TypeDesc): (r: Result<string>)
    ensures r.Failure? <==> t.FullName.None?
    ensures r.Success? ==> (|r.value| == |t.FullName.value| && '+' !in r.value &&
                            forall i :: 0 <= i < |r.value| ==>
                              r.value[i] == if t.FullName.value[i] == '+' then '.' else t.FullName.value[i])
  {
    match t.FullName
    case None => Failure("NullReferenceException")
    case Some(name) =>
      ReplaceCharSpec(name, '+', '.');
      Success(ReplaceAll(name, "+", "."))
  }

  /** The identifier of a property: `P:`, the dotted name of its declaring type, a dot and
      its name. */
  function PropertyKey(p: PropertyDesc): Result<string> {
    match DottedName(p.DeclaringType)
    case Failure(e) => Failure(e)
    case Success(typeName) => Success("P:" + typeName + "." + p.Name)
  }

  /** The identifier of an enum value: `F:`, the dotted name of the enum, a dot and the
      value's name. */
  function EnumValueKey(t: TypeDesc, enumValueName: string): Result<string> {
    match DottedName(t)
    case Failure(e) => Failure(e)
    case Success(typeName) => Success("F:" + typeName + "." + enumValueName)
  }

  /** The four kinds of identifier start with different letters, so looking up one kind of
      member never finds the documentation of another. */
  lemma KeyKindsDiffer(m: MethodDesc, t: TypeDesc, p: PropertyDesc, e: TypeDesc, v: string)
    ensures MethodKey(m) != TypeKey(t)
    ensures PropertyKey(p).Success? ==> PropertyKey(p).value != MethodKey(m) && PropertyKey(p).value != TypeKey(t)
    ensures EnumValueKey(e, v).Success? ==>
      EnumValueKey(e, v).value != MethodKey(m) && EnumValueKey(e, v).value != TypeKey(t)
    ensures PropertyKey(p).Success? && EnumValueKey(e, v).Success? ==> PropertyKey(p).value != EnumValueKey(e, v).value
  {
    assert MethodKey(m)[0] == 'M' && TypeKey(t)[0] == 'T';
    if PropertyKey(p).Success? {
      assert PropertyKey(p).value[0] == 'P';
    }
    if EnumValueKey(e, v).Success? {
      assert EnumValueKey(e, v).value[0] == 'F';
    }
  }

  /** A nested type keeps its `+` in its type identifier, while the identifiers of its
      properties and enum values spell it with a dot. */
  lemma NestedTypeKeys(t: TypeDesc, p: PropertyDesc)
    requires t.FullName == Some("A+B") && p.DeclaringType == t && p.Name == "X"
    ensures TypeKey(t) == "T:A+B"
    ensures PropertyKey(p) == Success("P:A.B.X")
    ensures EnumValueKey(t, "X") == Success("F:A.B.X")
  {
    var dotted := DottedName(t).value;
    assert dotted[0] == 'A' && dotted[1] == '.' && dotted[2] == 'B';
    assert dotted == "A.B";
    assert PropertyKey(p) == Success("P:" + dotted + "." + "X");
    assert "P:" + "A.B" + "." + "X" == "P:A.B.X";
    assert EnumValueKey(t, "X") == Success("F:" + dotted + "." + "X");
    assert "F:" + "A.B" + "." + "X" == "F:A.B.X";
  }

  /** A method without parameters has empty parentheses in its identifier. */
  lemma ParameterlessMethodKey(m: MethodDesc)
    requires m.Parameters == [] && m.DeclaringType.FullName.Some?
    ensures MethodKey(m) == "M:" + m.DeclaringType.FullName.value + "." + m.Name + "()"
  {
    var parameters := seq(|m.Parameters|, i requires 0 <= i < |m.Parameters| => DocTypeName(m.Parameters[i].ParameterType));
    assert parameters == [];
  }

  /** The index of member elements and the lookups over it. */
  class DocumentationIndex {
    const memberDocumentationNodes: map<string, MemberElement>

    /** A documentation without a file: nothing is indexed. */
    constructor Empty()
      ensures memberDocumentationNodes == map[]
    {
      memberDocumentationNodes := map[];
    }

    /** Every member element is indexed under its name, in document order. */
    constructor FromMembers(elements: seq<MemberElement>)
      ensures memberDocumentationNodes == Index(elements)
    {
      var nodes := map[];
      for k := 0 to |elements|
        invariant nodes == Index(elements[..k])
      {
        assert elements[..k + 1][..k] == elements[..k];
        nodes := nodes[elements[k].Name := elements[k]];
      }
      assert elements[..|elements|] == elements;
      memberDocumentationNodes := nodes;
    }

    function GetMethodDocumentation(m: MethodDesc): Option<MemberElement> {
      Lookup(memberDocumentationNodes, MethodKey(m))
    }

    function GetTypeDocumentation(t: TypeDesc): Option<MemberElement> {
      Lookup(memberDocumentationNodes, TypeKey(t))
    }

    /** Null when the declaring type has no full name (the source dereferences it). */
    function GetPropertyDocumentation(p: PropertyDesc): Result<Option<MemberElement>> {
      match PropertyKey(p)
      case Failure(e) => Failure(e)
      case Success(key) => Success(Lookup(memberDocumentationNodes, key))
    }

    function GetEnumValueDocumentation(t: TypeDesc, enumValueName: string): Result<Option<MemberElement>> {
      match EnumValueKey(t, enumValueName)
      case Failure(e) => Failure(e)
      case Success(key) => Success(Lookup(memberDocumentationNodes, key))
    }

    function GetMethodText(m: MethodDesc): Option<string> {
      ParseDocumentation(GetMethodDocumentation(m))
    }

    function GetTypeText(t: TypeDesc): Option<string> {
      ParseDocumentation(GetTypeDocumentation(t))
    }

    function GetPropertyText(p: PropertyDesc): Result<Option<string>> {
      match GetPropertyDocumentation(p)
      case Failure(e) => Failure(e)
      case Success(node) => Success(ParseDocumentation(node))
    }

    function GetEnumValueText(t: TypeDesc, enumValueName: string): Result<Option<string>> {
      match GetEnumValueDocumentation(t, enumValueName)
      case Failure(e) => Failure(e)
      case Success(node) => Success(ParseDocumentation(node))
    }
  }

  /** With an empty index every lookup gives null. */
  lemma EmptyFindsNothing(d: DocumentationIndex, m: MethodDesc, t: TypeDesc, p: PropertyDesc, v: string)
    requires d.memberDocumentationNodes == map[]
    ensures d.GetMethodText(m).None? && d.GetTypeText(t).None?
    ensures d.GetPropertyText(p).Success? ==> d.GetPropertyText(p).value.None?
    ensures d.GetEnumValueText(t, v).Success? ==> d.GetEnumValueText(t, v).value.None?
  {
  }

  /** A method's documentation, read from an index of member elements, is the text of the
      last element carrying the method's identifier, and null when none carries it. */
  lemma MethodTextFromMembers(d: DocumentationIndex, elements: seq<MemberElement>, m: MethodDesc)
    requires d.memberDocumentationNodes == Index(elements)
    ensures d.GetMethodText(m).None? <==> forall i :: 0 <= i < |elements| ==> elements[i].Name != MethodKey(m)
    ensures d.GetMethodText(m).Some? ==>
      exists i :: (0 <= i < |elements| && elements[i].Name == MethodKey(m) && d.GetMethodText(m) == Some(elements[i].Value) &&
                   forall j :: i < j < |elements| ==> elements[j].Name != MethodKey(m))
  {
    IndexSpec(elements, MethodKey(m));
  }
}
