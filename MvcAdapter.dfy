/** The annotation rules of ASP.NET Core MVC controllers (MvcAdapter.cs). */
module MvcAdapter {
  import opened Wrappers
  import opened Reflection

  /** A controller derives, at some distance, from a class named `Controller`. */
  predicate IsController(t: TypeDesc) {
    HasBaseType(t, "Controller")
  }

  /** Every type is observable. */
  predicate IsObservableObject(t: TypeDesc) {
    true
  }

  /** Unlike the Web API rules, no attribute can make a type non-observable. */
  lemma AlwaysObservable(t: TypeDesc, json: Attribute)
    requires json.Name == "JsonAttribute"
    ensures IsObservableObject(t.(Attributes := t.Attributes + [json]))
  {
  }

  /** The route prefix of a controller is its `Route.Template`. */
  function GetRoutePrefixName(t: TypeDesc): (r: Option<string>)
    ensures !HasAttribute(t.Attributes, "RouteAttribute") ==> r.None?
    ensures forall i :: FirstNamedAt(t.Attributes, "RouteAttribute", i) ==>
      r == if "Template" in t.Attributes[i].Strings then t.Attributes[i].Strings["Template"] else None
  {
    GetAttributeString(t.Attributes, "RouteAttribute", "Template")
  }

  /** One of the four verb attributes is present. */
  predicate HasVerbAttribute(m: MethodDesc) {
    HasAttribute(m.Attributes, "HttpGetAttribute") || HasAttribute(m.Attributes, "HttpPostAttribute") ||
    HasAttribute(m.Attributes, "HttpDeleteAttribute") || HasAttribute(m.Attributes, "HttpPutAttribute")
  }

  /** An action carries a verb attribute; nothing else is consulted. */
  predicate IsAction(m: MethodDesc) {
    HasVerbAttribute(m)
  }

  /** The suffixed names of the four verb attributes. */
  const VerbNames: set<string> := {"HttpGetAttribute", "HttpPostAttribute", "HttpDeleteAttribute", "HttpPutAttribute"}

  /** Only the four suffixed verb names count: neither a `Route` attribute nor
      `NonAction` nor the return type has any say. */
  lemma ActionRule(m: MethodDesc)
    ensures IsAction(m) <==> exists i :: 0 <= i < |m.Attributes| && m.Attributes[i].Name in VerbNames
  {
    if exists i :: 0 <= i < |m.Attributes| && m.Attributes[i].Name in VerbNames {
      var i :| 0 <= i < |m.Attributes| && m.Attributes[i].Name in VerbNames;
      assert HasAttribute(m.Attributes, m.Attributes[i].Name);
    }
  }

  /** The template of the verb attribute named `attributeName`, or the empty text. */
  function VerbTemplate(m: MethodDesc, attributeName: string): string {
    GetAttributeString(m.Attributes, attributeName, "Template").GetOr("")
  }

  /** The route of an action: the template of the first present verb attribute in the
      order Get, Post, Put, Delete (empty when it has none), else the method's name. */
  function GetRouteFormat(m: MethodDesc): (r: string)
    ensures !HasVerbAttribute(m) ==> r == m.Name
    ensures HasAttribute(m.Attributes, "HttpGetAttribute") ==> r == VerbTemplate(m, "HttpGetAttribute")
    ensures !HasAttribute(m.Attributes, "HttpGetAttribute") && HasAttribute(m.Attributes, "HttpPostAttribute") ==>
      r == VerbTemplate(m, "HttpPostAttribute")
    ensures (!HasAttribute(m.Attributes, "HttpGetAttribute") && !HasAttribute(m.Attributes, "HttpPostAttribute") &&
             HasAttribute(m.Attributes, "HttpPutAttribute")) ==> r == VerbTemplate(m, "HttpPutAttribute")
    ensures (!HasAttribute(m.Attributes, "HttpGetAttribute") && !HasAttribute(m.Attributes, "HttpPostAttribute") &&
             !HasAttribute(m.Attributes, "HttpPutAttribute") && HasAttribute(m.Attributes, "HttpDeleteAttribute")) ==>
      r == VerbTemplate(m, "HttpDeleteAttribute")
  {
    if HasAttribute(m.Attributes, "HttpGetAttribute") then VerbTemplate(m, "HttpGetAttribute")
    else if HasAttribute(m.Attributes, "HttpPostAttribute") then VerbTemplate(m, "HttpPostAttribute")
    else if HasAttribute(m.Attributes, "HttpPutAttribute") then VerbTemplate(m, "HttpPutAttribute")
    else if HasAttribute(m.Attributes, "HttpDeleteAttribute") then VerbTemplate(m, "HttpDeleteAttribute")
    else m.Name
  }

  /** A verb attribute that sets no template gives the empty route, not the method name. */
  lemma EmptyTemplateIsEmptyRoute(m: MethodDesc)
    requires HasAttribute(m.Attributes, "HttpGetAttribute")
    requires GetAttributeString(m.Attributes, "HttpGetAttribute", "Template").None?
    ensures GetRouteFormat(m) == ""
  {
  }

  /** A constructed `Task<T>`. */
  predicate IsTaskOf(t: TypeDesc) {
    t.IsGenericType() && t.Definition.value.Is(TaskOfName)
  }

  /** The return types that mean "no content": void, the non-generic `Task`, and types
      with an ancestor named `IActionResult`. */
  predicate IsNoContent(t: TypeDesc) {
    t.Is(VoidName) || HasBaseType(t, "IActionResult") || t.Is(TaskName)
  }

  /** The type an action's response carries: `Task<T>` is unwrapped once; a "no content"
      type gives null. */
  function GetReturnType(m: MethodDesc): (r: Option<TypeDesc>)
    requires m.ReturnType.WellFormed()
    ensures r.Some? ==> !IsNoContent(r.value) && r.value.WellFormed()
    ensures !IsTaskOf(m.ReturnType) ==> r == (if IsNoContent(m.ReturnType) then None else Some(m.ReturnType))
    ensures IsTaskOf(m.ReturnType) ==>
      var t := m.ReturnType.GenericArguments[0];
      r == (if IsNoContent(t) then None else Some(t))
  {
    var t := if IsTaskOf(m.ReturnType) then m.ReturnType.GenericArguments[0] else m.ReturnType;
    assert t.WellFormed();
    if IsNoContent(t) then None else Some(t)
  }

  /** Only the base chain is searched for `IActionResult`: a type that is itself named
      `IActionResult` (or only implements it) is returned as it is. */
  lemma ActionResultItselfKept(m: MethodDesc)
    requires m.ReturnType.WellFormed() && !IsTaskOf(m.ReturnType)
    requires m.ReturnType.Name == "IActionResult" && m.ReturnType.BaseType.None?
    requires !m.ReturnType.Is(VoidName) && !m.ReturnType.Is(TaskName)
    ensures GetReturnType(m) == Some(m.ReturnType)
  {
  }

  /** `[FromQuery]`, matched by the literal name `FromQuery`. */
  predicate IsParameterFromUri(p: ParameterDesc) {
    HasAttribute(p.Attributes, "FromQuery")
  }

  /** `[FromBody]`, matched by the literal name `FromBody`. */
  predicate IsParameterFromBody(p: ParameterDesc) {
    HasAttribute(p.Attributes, "FromBody")
  }

  /** `[HttpPost]`, matched by the literal name `HttpPost`. */
  predicate IsPostAction(m: MethodDesc) {
    HasAttribute(m.Attributes, "HttpPost")
  }

  /** `[HttpDelete]`, matched by the literal name `HttpDelete`. */
  predicate IsDeleteAction(m: MethodDesc) {
    HasAttribute(m.Attributes, "HttpDelete")
  }

  /** `[HttpPut]`, matched by the literal name `HttpPut`. */
  predicate IsPutAction(m: MethodDesc) {
    HasAttribute(m.Attributes, "HttpPut")
  }

  /** The verb and binding predicates use names without the `Attribute` suffix, while
      `IsAction` and `GetRouteFormat` use the suffixed names: a method whose attributes
      carry only the suffixed names is an action with a route but is not a POST, PUT or
      DELETE action, and a parameter with only suffixed names binds from neither the query
      nor the body. */
  lemma SuffixedNamesAreNotVerbs(m: MethodDesc, p: ParameterDesc)
    requires forall i :: 0 <= i < |m.Attributes| ==> EndsWithAttribute(m.Attributes[i].Name)
    requires forall i :: 0 <= i < |p.Attributes| ==> EndsWithAttribute(p.Attributes[i].Name)
    ensures HasAttribute(m.Attributes, "HttpPostAttribute") ==> IsAction(m)
    ensures !IsPostAction(m) && !IsPutAction(m) && !IsDeleteAction(m)
    ensures !IsParameterFromUri(p) && !IsParameterFromBody(p)
  {
    NotNamed(m.Attributes, "HttpPost");
    NotNamed(m.Attributes, "HttpPut");
    NotNamed(m.Attributes, "HttpDelete");
    NotNamed(p.Attributes, "FromQuery");
    NotNamed(p.Attributes, "FromBody");
  }

  /** Attributes whose names all carry the suffix include none named without it. */
  lemma NotNamed(attributes: seq<Attribute>, name: string)
    requires forall i :: 0 <= i < |attributes| ==> EndsWithAttribute(attributes[i].Name)
    requires !EndsWithAttribute(name)
    ensures !HasAttribute(attributes, name)
  {
  }

  /** An attribute type name with the conventional `Attribute` suffix. */
  predicate EndsWithAttribute(name: string) {
    |name| >= 9 && name[|name| - 9..] == "Attribute"
  }

  /** No union alternatives are ever reported. */
  function GetUnionTypes(p: PropertyDesc): (r: seq<TypeDesc>)
    ensures r == []
  {
    []
  }
}
