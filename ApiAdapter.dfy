/** `IApiAdapter`: the converter is built on one of the two annotation dialects, chosen
    once; each query is answered by the chosen adapter. */
module ApiAdapters {
  import opened Wrappers
  import opened Reflection
  import WaAdapter
  import MvcAdapter

  datatype ApiAdapter = Wa | Mvc
  {
    predicate IsController(t: TypeDesc) {
      if Wa? then WaAdapter.IsController(t) else MvcAdapter.IsController(t)
    }

    predicate IsObservableObject(t: TypeDesc) {
      if Wa? then WaAdapter.IsObservableObject(t) else MvcAdapter.IsObservableObject(t)
    }

    function GetRoutePrefixName(t: TypeDesc): Option<string> {
      if Wa? then WaAdapter.GetRoutePrefixName(t) else MvcAdapter.GetRoutePrefixName(t)
    }

    predicate IsAction(m: MethodDesc) {
      if Wa? then WaAdapter.IsAction(m) else MvcAdapter.IsAction(m)
    }

    /** Null (`None`) only ever comes from the Web API rules. */
    function GetRouteFormat(m: MethodDesc): (r: Option<string>)
      ensures Mvc? ==> r.Some?
    {
      if Wa? then WaAdapter.GetRouteFormat(m) else Some(MvcAdapter.GetRouteFormat(m))
    }

    function GetReturnType(m: MethodDesc): (r: Option<TypeDesc>)
      requires m.ReturnType.WellFormed()
      ensures r.Some? ==> r.value.WellFormed()
    {
      if Wa? then WaAdapter.GetReturnType(m) else MvcAdapter.GetReturnType(m)
    }

    predicate IsParameterFromUri(p: ParameterDesc) {
      if Wa? then WaAdapter.IsParameterFromUri(p) else MvcAdapter.IsParameterFromUri(p)
    }

    predicate IsParameterFromBody(p: ParameterDesc) {
      if Wa? then WaAdapter.IsParameterFromBody(p) else MvcAdapter.IsParameterFromBody(p)
    }

    predicate IsPostAction(m: MethodDesc) {
      if Wa? then WaAdapter.IsPostAction(m) else MvcAdapter.IsPostAction(m)
    }

    predicate IsDeleteAction(m: MethodDesc) {
      if Wa? then WaAdapter.IsDeleteAction(m) else MvcAdapter.IsDeleteAction(m)
    }

    predicate IsPutAction(m: MethodDesc) {
      if Wa? then WaAdapter.IsPutAction(m) else MvcAdapter.IsPutAction(m)
    }

    /** Reading the alternatives can fail only under the Web API rules. */
    function GetUnionTypes(p: PropertyDesc): (r: Result<seq<TypeDesc>>)
      ensures Mvc? ==> r == Success([])
    {
      if Wa? then WaAdapter.GetUnionTypes(p) else Success(MvcAdapter.GetUnionTypes(p))
    }
  }
}
