/** The annotation rules of ASP.NET Web API controllers (WaAdapter.cs): which types are
    controllers, which methods are actions, and where their routes and return types come
    from, all read from attribute names. */
module WaAdapter {
  import opened Wrappers
  import opened Text
  import opened Reflection

  /** A controller derives, at some distance, from a class named `Controller`. */
  predicate IsController(t: TypeDesc) {
    HasBaseType(t, "Controller")
  }

  /** A type is observable unless its first `JsonAttribute` says otherwise. */
  predicate IsObservableObject(t: TypeDesc) {
    !HasAttribute(t.Attributes, "JsonAttribute") || GetAttributeBool(t.Attributes, "JsonAttribute", "Observable")
  }

  /** Observability is decided by the first `JsonAttribute` alone: without one the type is
      observable, with one exactly when it sets `Observable` to true. */
  lemma ObservableUnlessJsonSaysNo(t: TypeDesc)
    ensures !IsObservableObject(t) <==>
      var json := FirstAttribute(t.Attributes, "JsonAttribute");
      json.Some? && !("Observable" in json.value.Bools && json.value.Bools["Observable"])
  {
  }

  /** The route prefix of a controller: `RoutePrefix.Name`, or else `Route.Template`. */
  function GetRoutePrefixName(t: TypeDesc): (r: Option<string>)
    ensures GetAttributeString(t.Attributes, "RoutePrefixAttribute", "Name").Some? ==>
      r == GetAttributeString(t.Attributes, "RoutePrefixAttribute", "Name")
    ensures GetAttributeString(t.Attributes, "RoutePrefixAttribute", "Name").None? ==>
      r == GetAttributeString(t.Attributes, "RouteAttribute", "Template")
  {
    match GetAttributeString(t.Attributes, "RoutePrefixAttribute", "Name")
    case Some(name) => Some(name)
    case None => GetAttributeString(t.Attributes, "RouteAttribute", "Template")
  }

  /** A controller without either attribute has no route prefix. */
  lemma NoPrefixWithoutRouteAttributes(t: TypeDesc)
    requires !HasAttribute(t.Attributes, "RoutePrefixAttribute") && !HasAttribute(t.Attributes, "RouteAttribute")
    ensures GetRoutePrefixName(t).None?
  {
  }

  /** One of the four verb attributes is present. */
  predicate HasVerbAttribute(m: MethodDesc) {
    HasAttribute(m.Attributes, "HttpGetAttribute") || HasAttribute(m.Attributes, "HttpPostAttribute") ||
    HasAttribute(m.Attributes, "HttpDeleteAttribute") || HasAttribute(m.Attributes, "HttpPutAttribute")
  }

  /** An action is not marked `NonAction`, does not return a type named `ActionResult`, and
      carries a route or a verb attribute. */
  predicate IsAction(m: MethodDesc) {
    !HasAttribute(m.Attributes, "NonActionAttribute") && m.ReturnType.Name != "ActionResult" &&
    (HasAttribute(m.Attributes, "RouteAttribute") || HasVerbAttribute(m))
  }

  /** The attribute names that make a method an action, absent `NonAction` and an
      `ActionResult` return type. */
  const ActionMarkers: set<string> :=
    {"RouteAttribute", "HttpGetAttribute", "HttpPostAttribute", "HttpDeleteAttribute", "HttpPutAttribute"}

  /** `NonAction` and an `ActionResult` return type each rule a method out; otherwise it is
      an action exactly when one of its attributes is a route or verb attribute. */
  lemma ActionRule(m: MethodDesc)
    ensures HasAttribute(m.Attributes, "NonActionAttribute") ==> !IsAction(m)
    ensures m.ReturnType.Name == "ActionResult" ==> !IsAction(m)
    ensures !HasAttribute(m.Attributes, "NonActionAttribute") && m.ReturnType.Name != "ActionResult" ==>
      (IsAction(m) <==> exists i :: 0 <= i < |m.Attributes| && m.Attributes[i].Name in ActionMarkers)
  {
    if exists i :: 0 <= i < |m.Attributes| && m.Attributes[i].Name in ActionMarkers {
      var i :| 0 <= i < |m.Attributes| && m.Attributes[i].Name in ActionMarkers;
      assert HasAttribute(m.Attributes, m.Attributes[i].Name);
    }
  }

  /** The template of the verb attribute named `attributeName`, or the empty text. */
  function VerbTemplate(m: MethodDesc, attributeName: string): string {
    GetAttributeString(m.Attributes, attributeName, "Template").GetOr("")
  }

  /** The route of an action: `Route.Format`, else `Route.Template`, else the template of
      the first present verb attribute in the order Get, Post, Put, Delete (empty when it
      has none), else null. */
  function GetRouteFormat(m: MethodDesc): (r: Option<string>)
    ensures var format := GetAttributeString(m.Attributes, "RouteAttribute", "Format");
      format.Some? ==> r == format
    ensures var format := GetAttributeString(m.Attributes, "RouteAttribute", "Format");
      var template := GetAttributeString(m.Attributes, "RouteAttribute", "Template");
      format.None? && template.Some? ==> r == template
    ensures r.None? <==>
      GetAttributeString(m.Attributes, "RouteAttribute", "Format").None? &&
      GetAttributeString(m.Attributes, "RouteAttribute", "Template").None? &&
      !HasVerbAttribute(m)
    ensures (r.Some? && GetAttributeString(m.Attributes, "RouteAttribute", "Format").None? &&
             GetAttributeString(m.Attributes, "RouteAttribute", "Template").None?) ==>
      r.value == VerbTemplate(m, FirstVerb(m))
  {
    var format := GetAttributeString(m.Attributes, "RouteAttribute", "Format");
    if format.Some? then format
    else
      var template := GetAttributeString(m.Attributes, "RouteAttribute", "Template");
      if template.Some? then template
      else if HasAttribute(m.Attributes, "HttpGetAttribute") then Some(VerbTemplate(m, "HttpGetAttribute"))
      else if HasAttribute(m.Attributes, "HttpPostAttribute") then Some(VerbTemplate(m, "HttpPostAttribute"))
      else if HasAttribute(m.Attributes, "HttpPutAttribute") then Some(VerbTemplate(m, "HttpPutAttribute"))
      else if HasAttribute(m.Attributes, "HttpDeleteAttribute") then Some(VerbTemplate(m, "HttpDeleteAttribute"))
      else None
  }

  /** The verb attribute whose template a route falls back to: Get before Post before Put
      before Delete. */
  function FirstVerb(m: MethodDesc): (r: string)
    ensures HasVerbAttribute(m) ==> HasAttribute(m.Attributes, r)
    ensures r == "HttpPostAttribute" ==> !HasAttribute(m.Attributes, "HttpGetAttribute")
    ensures r == "HttpPutAttribute" ==>
      !HasAttribute(m.Attributes, "HttpGetAttribute") && !HasAttribute(m.Attributes, "HttpPostAttribute")
    ensures r == "HttpDeleteAttribute" ==>
      !HasAttribute(m.Attributes, "HttpGetAttribute") && !HasAttribute(m.Attributes, "HttpPostAttribute") &&
      !HasAttribute(m.Attributes, "HttpPutAttribute")
  {
    if HasAttribute(m.Attributes, "HttpGetAttribute") then "HttpGetAttribute"
    else if HasAttribute(m.Attributes, "HttpPostAttribute") then "HttpPostAttribute"
    else if HasAttribute(m.Attributes, "HttpPutAttribute") then "HttpPutAttribute"
    else "HttpDeleteAttribute"
  }

  /** The only actions without a route are those whose `Route` attribute sets neither a
      format nor a template and that carry no verb attribute: for them the converter's
      route handling dereferences null. */
  lemma ActionWithoutRoute(m: MethodDesc)
    requires IsAction(m) && GetRouteFormat(m).None?
    ensures HasAttribute(m.Attributes, "RouteAttribute") && !HasVerbAttribute(m)
    ensures GetAttributeString(m.Attributes, "RouteAttribute", "Format").None?
    ensures GetAttributeString(m.Attributes, "RouteAttribute", "Template").None?
  {
  }

  /** A constructed `Task<T>`. */
  predicate IsTaskOf(t: TypeDesc) {
    t.IsGenericType() && t.Definition.value.Is(TaskOfName)
  }

  /** A constructed generic whose definition's name starts with `IHttpActionResult`. */
  predicate IsActionResultOf(t: TypeDesc) {
    t.IsGenericType() && StartsWith(t.Definition.value.Name, "IHttpActionResult")
  }

  /** The return types that mean "no content": void, `IHttpActionResult`, `IActionResult`
      and the non-generic `Task`. */
  predicate IsNoContent(t: TypeDesc) {
    t.Is(VoidName) || t.Name == "IHttpActionResult" || t.Name == "IActionResult" || t.Is(TaskName)
  }

  /** The type an action's response carries: `Task<T>` is unwrapped once, then a generic
      `IHttpActionResult...<T>` once; a "no content" type gives null. */
  function GetReturnType(m: MethodDesc): (r: Option<TypeDesc>)
    requires m.ReturnType.WellFormed()
    ensures r.Some? ==> !IsNoContent(r.value) && r.value.WellFormed()
    ensures !IsTaskOf(m.ReturnType) && !IsActionResultOf(m.ReturnType) ==>
      r == (if IsNoContent(m.ReturnType) then None else Some(m.ReturnType))
  {
    var t := if IsTaskOf(m.ReturnType) then m.ReturnType.GenericArguments[0] else m.ReturnType;
    assert t.WellFormed();
    var u := if IsActionResultOf(t) then t.GenericArguments[0] else t;
    assert u.WellFormed();
    if IsNoContent(u) then None else Some(u)
  }

  /** `Task<T>` is unwrapped once only: a `Task<Task<U>>` gives `Task<U>`. */
  lemma TaskUnwrappedOnce(m: MethodDesc, inner: TypeDesc)
    requires m.ReturnType.WellFormed() && IsTaskOf(m.ReturnType) && m.ReturnType.GenericArguments[0] == inner
    requires IsTaskOf(inner) && !IsActionResultOf(inner)
    ensures GetReturnType(m) == if IsNoContent(inner) then None else Some(inner)
    ensures IsNoContent(inner) <==> inner.Name == "IHttpActionResult" || inner.Name == "IActionResult"
  {
  }

  /** `Task<IHttpActionResult<T>>` gives `T` unless `T` itself means "no content". */
  lemma TaskOfActionResult(m: MethodDesc)
    requires m.ReturnType.WellFormed() && IsTaskOf(m.ReturnType)
    requires IsActionResultOf(m.ReturnType.GenericArguments[0])
    requires |m.ReturnType.GenericArguments[0].GenericArguments| > 0
    ensures var t := m.ReturnType.GenericArguments[0].GenericArguments[0];
      GetReturnType(m) == if IsNoContent(t) then None else Some(t)
  {
  }

  /** A `Task<W>` whose argument is not an `IHttpActionResult...<T>` gives `W`, unless `W`
      means "no content". */
  lemma TaskOfPlain(m: MethodDesc)
    requires m.ReturnType.WellFormed() && IsTaskOf(m.ReturnType)
    requires !IsActionResultOf(m.ReturnType.GenericArguments[0])
    ensures var w := m.ReturnType.GenericArguments[0];
      GetReturnType(m) == if IsNoContent(w) then None else Some(w)
  {
  }

  /** An `IHttpActionResult...<W>` that is not wrapped in a `Task` gives `W`, unless `W`
      means "no content". */
  lemma ActionResultOfPlain(m: MethodDesc)
    requires m.ReturnType.WellFormed() && !IsTaskOf(m.ReturnType) && IsActionResultOf(m.ReturnType)
    ensures var w := m.ReturnType.GenericArguments[0];
      GetReturnType(m) == if IsNoContent(w) then None else Some(w)
  {
  }

  /** `[FromUri]` or `[FromQuery]` */
  predicate IsParameterFromUri(p: ParameterDesc) {
    HasAttribute(p.Attributes, "FromUriAttribute") || HasAttribute(p.Attributes, "FromQueryAttribute")
  }

  /** A parameter binds from the URI exactly when one of its attributes is named
      `FromUriAttribute` or `FromQueryAttribute`. */
  lemma FromUriRule(p: ParameterDesc)
    ensures IsParameterFromUri(p) <==>
      exists i :: 0 <= i < |p.Attributes| && p.Attributes[i].Name in {"FromUriAttribute", "FromQueryAttribute"}
  {
    if exists i :: 0 <= i < |p.Attributes| && p.Attributes[i].Name in {"FromUriAttribute", "FromQueryAttribute"} {
      var i :| 0 <= i < |p.Attributes| && p.Attributes[i].Name in {"FromUriAttribute", "FromQueryAttribute"};
      assert HasAttribute(p.Attributes, p.Attributes[i].Name);
    }
  }

  /** `[FromBody]` */
  predicate IsParameterFromBody(p: ParameterDesc) {
    HasAttribute(p.Attributes, "FromBodyAttribute")
  }

  /** `[HttpPost]` */
  predicate IsPostAction(m: MethodDesc) {
    HasAttribute(m.Attributes, "HttpPostAttribute")
  }

  /** `[HttpDelete]` */
  predicate IsDeleteAction(m: MethodDesc) {
    HasAttribute(m.Attributes, "HttpDeleteAttribute")
  }

  /** `[HttpPut]` */
  predicate IsPutAction(m: MethodDesc) {
    HasAttribute(m.Attributes, "HttpPutAttribute")
  }

  /** The alternatives of a property typed `object`: the `ReturnType` of each of its
      `ReturnTypeAttribute`s, in order. */
  function GetUnionTypes(p: PropertyDesc): (r: Result<seq<TypeDesc>>)
    ensures var named := AttributesNamed(p.Attributes, "ReturnTypeAttribute");
      && (r.Success? <==> forall i :: 0 <= i < |named| ==> "ReturnType" in named[i].Types)
      && (r.Success? ==> |r.value| == |named| &&
                         forall i :: 0 <= i < |named| ==> r.value[i] == named[i].Types["ReturnType"])
    ensures !HasAttribute(p.Attributes, "ReturnTypeAttribute") ==> r == Success([])
  {
    GetAttributeTypes(p.Attributes, "ReturnTypeAttribute", "ReturnType")
  }
}
