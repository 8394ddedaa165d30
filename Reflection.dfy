/** The parts of .NET reflection that the adapters, the converter and the documentation
    index consult, as plain values, and the helpers of TypeExtensions.cs and
    ReflectionHelpers.cs over them. A type is identified by its value: two descriptors
    of the same type are equal. */
module Reflection {
  import opened Wrappers
  import opened Text

  /** A custom attribute: the name of its type and the values of its properties by
      property name, kept apart by the type each property is declared with (a string, a
      bool or a `Type`), so that reading a property at its declared type never fails. */
  datatype Attribute = Attribute(
    Name: string,
    Strings: map<string, Option<string>>,
    Bools: map<string, bool>,
    Types: map<string, TypeDesc>)

  /** A `System.Type`. `Definition` is `GetGenericTypeDefinition()`, present exactly for a
      constructed generic type; `ElementType` is present exactly for an array;
      `Interfaces` is `GetInterfaces()` (for an interface, the interfaces it extends);
      `Attributes` its custom attributes in declaration order. */
  datatype TypeDesc = TypeDesc(
    Name: string,
    Namespace: Option<string>,
    FullName: Option<string>,
    IsInterface: bool,
    IsClass: bool,
    IsEnum: bool,
    BaseType: Option<TypeDesc>,
    Definition: Option<TypeDesc>,
    GenericArguments: seq<TypeDesc>,
    ElementType: Option<TypeDesc>,
    Interfaces: seq<TypeDesc>,
    Attributes: seq<Attribute>)
  {
    /** `GetTypeInfo().IsGenericType` */
    predicate IsGenericType() {
      Definition.Some?
    }

    /** `IsArray` */
    predicate IsArray() {
      ElementType.Some?
    }

    /** `this == typeof(X)` for the non-generic type or generic definition whose full name
        is `fullName`; a constructed generic type is never such a type. */
    predicate Is(fullName: string) {
      !IsGenericType() && FullName == Some(fullName)
    }

    /** A generic type always has type arguments, here and in its type arguments. */
    predicate WellFormed()
      decreases this
    {
      (IsGenericType() ==> |GenericArguments| > 0) &&
      forall i :: 0 <= i < |GenericArguments| ==> GenericArguments[i].WellFormed()
    }
  }

  /** A `ParameterInfo`. */
  datatype ParameterDesc = ParameterDesc(
    Name: string, ParameterType: TypeDesc, IsOptional: bool, Attributes: seq<Attribute>)

  /** A `MethodInfo`. */
  datatype MethodDesc = MethodDesc(
    Name: string,
    DeclaringType: TypeDesc,
    ReturnType: TypeDesc,
    Parameters: seq<ParameterDesc>,
    IsPublic: bool,
    IsSpecialName: bool,
    Attributes: seq<Attribute>)

  /** A `PropertyInfo`. */
  datatype PropertyDesc = PropertyDesc(
    Name: string, DeclaringType: TypeDesc, PropertyType: TypeDesc, Attributes: seq<Attribute>)

  /** Full names of the framework types the generator compares against with `typeof`. */
  const VoidName := "System.Void"
  const TaskName := "System.Threading.Tasks.Task"
  const TaskOfName := "System.Threading.Tasks.Task`1"
  const NullableName := "System.Nullable`1"
  const DictionaryInterfaceName := "System.Collections.Generic.IDictionary`2"
  const Int32Name := "System.Int32"
  const Int64Name := "System.Int64"
  const SingleName := "System.Single"
  const DoubleName := "System.Double"
  const DecimalName := "System.Decimal"
  const StringName := "System.String"
  const BooleanName := "System.Boolean"
  const TimeSpanName := "System.TimeSpan"
  const DateTimeName := "System.DateTime"
  const ObjectName := "System.Object"

  /** The strict base chain of a type, nearest first. */
  function Ancestors(t: TypeDesc): (r: seq<TypeDesc>)
    ensures t.BaseType.None? <==> r == []
    ensures t.BaseType.Some? ==> r[0] == t.BaseType.value
    decreases t
  {
    match t.BaseType
    case None => []
    case Some(b) => [b] + Ancestors(b)
  }

  /** `TypeExtensions.HasBaseType`: the base type is named `typeName`, or has such a base. */
  predicate HasBaseType(t: TypeDesc, typeName: string)
    decreases t
  {
    t.BaseType.Some? && (t.BaseType.value.Name == typeName || HasBaseType(t.BaseType.value, typeName))
  }

  /** `HasBaseType` looks at the strict ancestors only, all of them: the type's own name
      never counts, and a type without a base type has none. */
  lemma {:induction false} HasBaseTypeSpec(t: TypeDesc, typeName: string)
    ensures HasBaseType(t, typeName) <==>
      exists i :: 0 <= i < |Ancestors(t)| && Ancestors(t)[i].Name == typeName
    decreases t
  {
    if t.BaseType.Some? {
      var b := t.BaseType.value;
      HasBaseTypeSpec(b, typeName);
      var rest := Ancestors(b);
      assert Ancestors(t) == [b] + rest;
      if HasBaseType(t, typeName) && b.Name != typeName {
        var i :| 0 <= i < |rest| && rest[i].Name == typeName;
        assert Ancestors(t)[i + 1] == rest[i];
      }
      if !HasBaseType(t, typeName) {
        forall i | 0 <= i < |Ancestors(t)| ensures Ancestors(t)[i].Name != typeName {
          if i > 0 {
            assert Ancestors(t)[i] == rest[i - 1];
          }
        }
      }
    }
  }

  /** `HasAttribute` (for types, methods and parameters alike): some attribute's type is
      named `attributeName` exactly. */
  predicate HasAttribute(attributes: seq<Attribute>, attributeName: string) {
    exists i :: 0 <= i < |attributes| && attributes[i].Name == attributeName
  }

  /** `FirstOrDefault(x => x.GetType().Name == attributeName)` over the attributes. */
  function FirstAttribute(attributes: seq<Attribute>, attributeName: string): (r: Option<Attribute>)
    ensures r.None? <==> !HasAttribute(attributes, attributeName)
    ensures r.Some? ==> exists i :: (0 <= i < |attributes| && attributes[i] == r.value &&
      r.value.Name == attributeName &&
      forall j :: 0 <= j < i ==> attributes[j].Name != attributeName)
    decreases |attributes|
  {
    if attributes == [] then None
    else if attributes[0].Name == attributeName then Some(attributes[0])
    else
      var r := FirstAttribute(attributes[1..], attributeName);
      assert HasAttribute(attributes[1..], attributeName) ==> HasAttribute(attributes, attributeName) by {
        if HasAttribute(attributes[1..], attributeName) {
          var i :| 0 <= i < |attributes[1..]| && attributes[1..][i].Name == attributeName;
          assert attributes[i + 1].Name == attributeName;
        }
      }
      assert r.Some? ==> exists i :: (0 <= i < |attributes| && attributes[i] == r.value &&
        r.value.Name == attributeName && forall j :: 0 <= j < i ==> attributes[j].Name != attributeName) by {
        if r.Some? {
          var i :| 0 <= i < |attributes[1..]| && attributes[1..][i] == r.value &&
            forall j :: 0 <= j < i ==> attributes[1..][j].Name != attributeName;
          assert attributes[i + 1] == r.value;
          forall j | 0 <= j < i + 1 ensures attributes[j].Name != attributeName {
            if j > 0 {
              assert attributes[j] == attributes[1..][j - 1];
            }
          }
        }
      }
      r
  }

  /** `attributes[i]` is the first attribute named `attributeName`. */
  predicate FirstNamedAt(attributes: seq<Attribute>, attributeName: string, i: int) {
    0 <= i < |attributes| && attributes[i].Name == attributeName &&
    forall j :: 0 <= j < i ==> attributes[j].Name != attributeName
  }

  /** Some attribute has the name exactly when a first one does, and `FirstAttribute`
      finds that one. */
  lemma FirstAttributeAt(attributes: seq<Attribute>, attributeName: string)
    ensures HasAttribute(attributes, attributeName) <==> exists i :: FirstNamedAt(attributes, attributeName, i)
    ensures forall i :: FirstNamedAt(attributes, attributeName, i) ==>
      FirstAttribute(attributes, attributeName) == Some(attributes[i])
  {
    var r := FirstAttribute(attributes, attributeName);
    if r.Some? {
      var k :| 0 <= k < |attributes| && attributes[k] == r.value && r.value.Name == attributeName &&
        forall j :: 0 <= j < k ==> attributes[j].Name != attributeName;
      assert FirstNamedAt(attributes, attributeName, k);
    }
  }

  /** `GetAttributeProperty<string>`: null when no attribute has that name or the first
      one has no such property, otherwise the property of the first such attribute. */
  function GetAttributeString(attributes: seq<Attribute>, attributeName: string, propertyName: string)
    : (r: Option<string>)
    ensures !HasAttribute(attributes, attributeName) ==> r.None?
    ensures forall i :: FirstNamedAt(attributes, attributeName, i) ==>
      r == if propertyName in attributes[i].Strings then attributes[i].Strings[propertyName] else None
  {
    FirstAttributeAt(attributes, attributeName);
    match FirstAttribute(attributes, attributeName)
    case None => None
    case Some(a) => if propertyName in a.Strings then a.Strings[propertyName] else None
  }

  /** `GetAttributeProperty<bool>`: false (the default) when no attribute has that name or
      the first one has no such property, otherwise the property of the first such
      attribute. */
  function GetAttributeBool(attributes: seq<Attribute>, attributeName: string, propertyName: string)
    : (r: bool)
    ensures !HasAttribute(attributes, attributeName) ==> !r
    ensures forall i :: FirstNamedAt(attributes, attributeName, i) ==>
      r == (propertyName in attributes[i].Bools && attributes[i].Bools[propertyName])
  {
    FirstAttributeAt(attributes, attributeName);
    match FirstAttribute(attributes, attributeName)
    case None => false
    case Some(a) => if propertyName in a.Bools then a.Bools[propertyName] else false
  }

  /** Only the first attribute of the name is read: attributes after it change nothing. */
  lemma {:induction false} FirstAttributeOnly(attributes: seq<Attribute>, more: seq<Attribute>,
                                              attributeName: string, propertyName: string)
    requires HasAttribute(attributes, attributeName)
    ensures FirstAttribute(attributes + more, attributeName) == FirstAttribute(attributes, attributeName)
    ensures GetAttributeString(attributes + more, attributeName, propertyName) ==
      GetAttributeString(attributes, attributeName, propertyName)
    ensures GetAttributeBool(attributes + more, attributeName, propertyName) ==
      GetAttributeBool(attributes, attributeName, propertyName)
    decreases |attributes|
  {
    if attributes[0].Name != attributeName {
      assert (attributes + more)[1..] == attributes[1..] + more;
      var i :| 0 <= i < |attributes| && attributes[i].Name == attributeName;
      assert attributes[1..][i - 1].Name == attributeName;
      FirstAttributeOnly(attributes[1..], more, attributeName, propertyName);
    }
  }

  /** The attributes named `attributeName`, in order. */
  function AttributesNamed(attributes: seq<Attribute>, attributeName: string): (r: seq<Attribute>)
    ensures forall i :: 0 <= i < |r| ==> r[i].Name == attributeName
    ensures |r| == 0 <==> !HasAttribute(attributes, attributeName)
    decreases |attributes|
  {
    if attributes == [] then []
    else
      var rest := AttributesNamed(attributes[1..], attributeName);
      assert HasAttribute(attributes, attributeName) <==>
        attributes[0].Name == attributeName || HasAttribute(attributes[1..], attributeName) by {
        if HasAttribute(attributes, attributeName) && attributes[0].Name != attributeName {
          var i :| 0 <= i < |attributes| && attributes[i].Name == attributeName;
          assert attributes[1..][i - 1].Name == attributeName;
        }
        if HasAttribute(attributes[1..], attributeName) {
          var i :| 0 <= i < |attributes[1..]| && attributes[1..][i].Name == attributeName;
          assert attributes[i + 1].Name == attributeName;
        }
      }
      if attributes[0].Name == attributeName then [attributes[0]] + rest else rest
  }

  /** `Where(x => x.GetType().Name == attributeName)` distributes over concatenation. */
  lemma {:induction false} AttributesNamedSplit(s: seq<Attribute>, t: seq<Attribute>, attributeName: string)
    ensures AttributesNamed(s + t, attributeName) == AttributesNamed(s, attributeName) + AttributesNamed(t, attributeName)
    decreases |s|
  {
    if s == [] {
      assert s + t == t;
    } else {
      assert (s + t)[1..] == s[1..] + t;
      AttributesNamedSplit(s[1..], t, attributeName);
    }
  }

  /** A single attribute is kept exactly when it has the name. With `AttributesNamedSplit`,
      every attribute with the name is kept, in order. */
  lemma AttributesNamedOne(a: Attribute, attributeName: string)
    ensures AttributesNamed([a], attributeName) == if a.Name == attributeName then [a] else []
  {
    assert [a][1..] == [];
  }

  /** `GetAttributeProperties<Type>`: the `Type` property of every attribute named
      `attributeName`, in attribute order; reading it from an attribute that has no such
      property dereferences null. */
  function GetAttributeTypes(attributes: seq<Attribute>, attributeName: string, propertyName: string)
    : (r: Result<seq<TypeDesc>>)
    ensures var named := AttributesNamed(attributes, attributeName);
      && (r.Success? <==> forall i :: 0 <= i < |named| ==> propertyName in named[i].Types)
      && (r.Success? ==> |r.value| == |named|)
      && (r.Success? ==> forall i :: 0 <= i < |r.value| ==> r.value[i] == named[i].Types[propertyName])
  {
    var named := AttributesNamed(attributes, attributeName);
    var r := TypesOf(named, propertyName);
    assert r.Success? ==> forall i :: 0 <= i < |named| ==> propertyName in named[i].Types;
    assert (forall i :: 0 <= i < |named| ==> propertyName in named[i].Types) ==> r.Success?;
    r
  }

  /** The `propertyName` property of each attribute, or a null dereference. */
  function TypesOf(attributes: seq<Attribute>, propertyName: string): (r: Result<seq<TypeDesc>>)
    ensures r.Success? <==> forall i :: 0 <= i < |attributes| ==> propertyName in attributes[i].Types
    ensures r.Success? ==> |r.value| == |attributes|
    ensures r.Success? ==> forall i :: 0 <= i < |r.value| ==> r.value[i] == attributes[i].Types[propertyName]
    decreases |attributes|
  {
    if attributes == [] then Success([])
    else if propertyName !in attributes[0].Types then Failure("NullReferenceException")
    else
      match TypesOf(attributes[1..], propertyName)
      case Failure(e) => Failure(e)
      case Success(rest) => Success([attributes[0].Types[propertyName]] + rest)
  }

  /** `TypeExtensions.GetProperty`: the first declared property of that name, or null. */
  function GetProperty(properties: seq<PropertyDesc>, propertyName: string): (r: Option<PropertyDesc>)
    ensures r.None? <==> forall i :: 0 <= i < |properties| ==> properties[i].Name != propertyName
    ensures r.Some? ==> exists i :: (0 <= i < |properties| && properties[i] == r.value &&
      r.value.Name == propertyName && forall j :: 0 <= j < i ==> properties[j].Name != propertyName)
    decreases |properties|
  {
    if properties == [] then None
    else if properties[0].Name == propertyName then Some(properties[0])
    else
      var r := GetProperty(properties[1..], propertyName);
      assert r.Some? ==> exists i :: (0 <= i < |properties| && properties[i] == r.value &&
        r.value.Name == propertyName && forall j :: 0 <= j < i ==> properties[j].Name != propertyName) by {
        if r.Some? {
          var i :| 0 <= i < |properties[1..]| && properties[1..][i] == r.value &&
            forall j :: 0 <= j < i ==> properties[1..][j].Name != propertyName;
          assert properties[i + 1] == r.value;
          forall j | 0 <= j < i + 1 ensures properties[j].Name != propertyName {
            if j > 0 {
              assert properties[j] == properties[1..][j - 1];
            }
          }
        }
      }
      assert r.None? ==> forall i :: 0 <= i < |properties| ==> properties[i].Name != propertyName by {
        if r.None? {
          forall i | 0 <= i < |properties| ensures properties[i].Name != propertyName {
            if i > 0 {
              assert properties[i] == properties[1..][i - 1];
            }
          }
        }
      }
      r
  }

  /** `ReflectionHelpers.IsDictionary`: an interface is a dictionary when it is a constructed
      `IDictionary<,>`; any other type when one of its interfaces is. */
  predicate IsDictionary(t: TypeDesc)
    decreases t
  {
    if t.IsInterface then t.IsGenericType() && t.Definition.value.Is(DictionaryInterfaceName)
    else exists i :: 0 <= i < |t.Interfaces| && IsDictionary(t.Interfaces[i])
  }

  /** A constructed `IDictionary<,>` interface. */
  predicate IsDictionaryInterface(t: TypeDesc) {
    t.IsInterface && t.IsGenericType() && t.Definition.value.Is(DictionaryInterfaceName)
  }

  /** `IsDictionary` looks one level deep: a class is a dictionary exactly when it implements
      a constructed `IDictionary<,>` itself, and an interface exactly when it is one (an
      interface that only extends `IDictionary<,>` is not recognised). */
  lemma IsDictionaryOneLevel(t: TypeDesc)
    requires forall i :: 0 <= i < |t.Interfaces| ==> t.Interfaces[i].IsInterface
    ensures t.IsInterface ==> (IsDictionary(t) <==> IsDictionaryInterface(t))
    ensures !t.IsInterface ==>
      (IsDictionary(t) <==> exists i :: 0 <= i < |t.Interfaces| && IsDictionaryInterface(t.Interfaces[i]))
  {
    if !t.IsInterface {
      if IsDictionary(t) {
        var i :| 0 <= i < |t.Interfaces| && IsDictionary(t.Interfaces[i]);
        assert IsDictionaryInterface(t.Interfaces[i]);
      }
      if exists i :: 0 <= i < |t.Interfaces| && IsDictionaryInterface(t.Interfaces[i]) {
        var i :| 0 <= i < |t.Interfaces| && IsDictionaryInterface(t.Interfaces[i]);
        assert IsDictionary(t.Interfaces[i]);
      }
    }
  }
}
