/** The legacy converter (Converter.cs): a registry of the enum and view types met while
    walking the controllers, driven as a worklist until every view has been written. */
module Converter {
  import opened Wrappers
  import opened Text
  import opened Reflection
  import opened ApiAdapters
  import opened ConverterRules

  /** The reflection the converter reads beyond a type's descriptor: `GetProperties()` and
      `GetMethods()` of each type (a type not in a map has none). */
  datatype Metadata = Metadata(Properties: map<TypeDesc, seq<PropertyDesc>>, Methods: map<TypeDesc, seq<MethodDesc>>)
  {
    function PropertiesOf(t: TypeDesc): seq<PropertyDesc> {
      if t in Properties then Properties[t] else []
    }

    function MethodsOf(t: TypeDesc): seq<MethodDesc> {
      if t in Methods then Methods[t] else []
    }

    /** Every property, return and parameter type is well formed. */
    predicate WellFormed() {
      (forall t, i :: t in Properties && 0 <= i < |Properties[t]| ==> Properties[t][i].PropertyType.WellFormed()) &&
      (forall t, i :: t in Methods && 0 <= i < |Methods[t]| ==> MethodWellFormed(Methods[t][i]))
    }
  }

  /** A method's return and parameter types are well formed. */
  predicate MethodWellFormed(m: MethodDesc) {
    m.ReturnType.WellFormed() && forall j :: 0 <= j < |m.Parameters| ==> m.Parameters[j].ParameterType.WellFormed()
  }

  /** One entry of the `views` dictionary: a type and whether its view has been written. */
  datatype ViewEntry = ViewEntry(Type: TypeDesc, Processed: bool)

  /** The `enums` set and the `views` dictionary, whose entries keep their insertion order. */
  datatype Registry = Registry(Enums: set<TypeDesc>, Views: seq<ViewEntry>)
  {
    /** `views.ContainsKey(t)` */
    predicate HasView(t: TypeDesc) {
      exists i :: 0 <= i < |Views| && Views[i].Type == t
    }

    /** The registered view types. */
    function Keys(): set<TypeDesc> {
      set i | 0 <= i < |Views| :: Views[i].Type
    }

    /** The view types already written. */
    function ProcessedKeys(): set<TypeDesc> {
      set i | 0 <= i < |Views| && Views[i].Processed :: Views[i].Type
    }

    /** Each key once; only enums in `Enums`; neither `System` types nor enums in `Views`. */
    predicate Valid() {
      (forall i, j :: 0 <= i < j < |Views| ==> Views[i].Type != Views[j].Type) &&
      (forall e :: e in Enums ==> e.IsEnum && !Ignored(e)) &&
      (forall i :: 0 <= i < |Views| ==> !Views[i].Type.IsEnum && !Ignored(Views[i].Type))
    }
  }

  /** Types of the `System` namespace are never registered. */
  predicate Ignored(t: TypeDesc) {
    t.Namespace == Some("System")
  }

  /** `RegisterType`: a `System` type is ignored, an enum goes into the enum set, and any
      other type is added to the views as unprocessed unless it is there already. */
  function Register(r: Registry, t: TypeDesc): Registry {
    if Ignored(t) then r
    else if t.IsEnum then r.(Enums := r.Enums + {t})
    else if r.HasView(t) then r
    else r.(Views := r.Views + [ViewEntry(t, false)])
  }

  /** `RegisterType` on each type in turn. */
  function RegisterAll(r: Registry, ts: seq<TypeDesc>): Registry
    decreases |ts|
  {
    if ts == [] then r else RegisterAll(Register(r, ts[0]), ts[1..])
  }

  /** Registering keeps the registry valid, keeps every existing entry (a processed view is
      never reset), adds at most the registered type as an unprocessed view, and afterwards
      the type is known unless it is a `System` type. */
  lemma RegisterSpec(r: Registry, t: TypeDesc)
    requires r.Valid()
    ensures var n := Register(r, t);
      && n.Valid()
      && |r.Views| <= |n.Views| <= |r.Views| + 1
      && (forall i :: 0 <= i < |r.Views| ==> n.Views[i] == r.Views[i])
      && (|n.Views| > |r.Views| ==> n.Views[|r.Views|] == ViewEntry(t, false) && !r.HasView(t))
      && n.Enums <= r.Enums + {t}
      && (!Ignored(t) ==> (if t.IsEnum then t in n.Enums else n.HasView(t)))
      && (Ignored(t) ==> n == r)
  {
    var n := Register(r, t);
    if !Ignored(t) && !t.IsEnum && !r.HasView(t) {
      assert n.Views[|r.Views|].Type == t;
      forall i, j | 0 <= i < j < |n.Views| ensures n.Views[i].Type != n.Views[j].Type {
        if j == |r.Views| {
          assert r.Views[i].Type != t;
        }
      }
    }
  }

  /** Registering a sequence of types keeps the registry valid and every existing entry,
      and adds only the registered types. */
  lemma {:induction false} RegisterAllSpec(r: Registry, ts: seq<TypeDesc>)
    requires r.Valid()
    ensures var n := RegisterAll(r, ts);
      && n.Valid()
      && |r.Views| <= |n.Views|
      && (forall i :: 0 <= i < |r.Views| ==> n.Views[i] == r.Views[i])
      && (forall i :: |r.Views| <= i < |n.Views| ==> !n.Views[i].Processed && n.Views[i].Type in ts)
      && (forall e :: e in n.Enums ==> e in r.Enums || e in ts)
    decreases |ts|
  {
    if ts != [] {
      RegisterSpec(r, ts[0]);
      var m := Register(r, ts[0]);
      RegisterAllSpec(m, ts[1..]);
      var n := RegisterAll(m, ts[1..]);
      forall i | |r.Views| <= i < |n.Views| ensures !n.Views[i].Processed && n.Views[i].Type in ts {
        if i < |m.Views| {
          assert n.Views[i] == m.Views[i] == ViewEntry(ts[0], false);
        } else {
          assert n.Views[i].Type in ts[1..];
        }
      }
    }
  }

  /** Registering `a` and then `b` is registering `a + b`. */
  lemma {:induction false} RegisterAllAppend(r: Registry, a: seq<TypeDesc>, b: seq<TypeDesc>)
    ensures RegisterAll(r, a + b) == RegisterAll(RegisterAll(r, a), b)
    decreases |a|
  {
    if a != [] {
      assert (a + b)[1..] == a[1..] + b;
      RegisterAllAppend(Register(r, a[0]), a[1..], b);
    } else {
      assert a + b == b;
    }
  }

  /** `views.First(x => !x.Value)`: the first unprocessed entry in insertion order. */
  function FirstPending(views: seq<ViewEntry>): (r: Option<nat>)
    ensures r.Some? ==> (r.value < |views| && !views[r.value].Processed &&
                         forall j :: 0 <= j < r.value ==> views[j].Processed)
    ensures r.None? <==> forall j :: 0 <= j < |views| ==> views[j].Processed
    decreases |views|
  {
    if views == [] then None
    else if !views[0].Processed then Some(0)
    else match FirstPending(views[1..])
      case None => None
      case Some(i) => Some(i + 1)
  }

  /** `views[type] = true` for the first pending view. */
  function MarkFirstPending(r: Registry): (n: Registry)
    requires FirstPending(r.Views).Some?
  {
    var i := FirstPending(r.Views).value;
    r.(Views := r.Views[i := ViewEntry(r.Views[i].Type, true)])
  }

  /** Marking processes exactly one view, a pending one, and keeps the registry valid: the
      processed set grows by exactly that view's type. */
  lemma MarkSpec(r: Registry)
    requires r.Valid() && FirstPending(r.Views).Some?
    ensures var i := FirstPending(r.Views).value;
      var n := MarkFirstPending(r);
      && n.Valid()
      && n.Keys() == r.Keys()
      && r.Views[i].Type !in r.ProcessedKeys()
      && n.ProcessedKeys() == r.ProcessedKeys() + {r.Views[i].Type}
  {
    var i := FirstPending(r.Views).value;
    var n := MarkFirstPending(r);
    assert n.Keys() == r.Keys() by {
      forall x | x in r.Keys() ensures x in n.Keys() {
        var j :| 0 <= j < |r.Views| && r.Views[j].Type == x;
        assert n.Views[j].Type == x;
      }
    }
    forall x | x in r.ProcessedKeys() ensures x != r.Views[i].Type {
      var j :| 0 <= j < |r.Views| && r.Views[j].Processed && r.Views[j].Type == x;
      assert j != i;
    }
    assert r.Views[i].Type in n.ProcessedKeys() by {
      assert n.Views[i].Processed;
    }
    forall x | x in r.ProcessedKeys() ensures x in n.ProcessedKeys() {
      var j :| 0 <= j < |r.Views| && r.Views[j].Processed && r.Views[j].Type == x;
      assert n.Views[j].Processed && n.Views[j].Type == x;
    }
  }

  /** Registration keeps the key set within the old keys and the registered types, and
      the processed set unchanged. */
  lemma {:induction false} RegisterAllKeys(r: Registry, ts: seq<TypeDesc>)
    requires r.Valid()
    ensures RegisterAll(r, ts).Keys() <= r.Keys() + set i | 0 <= i < |ts| :: ts[i]
    ensures RegisterAll(r, ts).ProcessedKeys() == r.ProcessedKeys()
  {
    RegisterAllSpec(r, ts);
    var n := RegisterAll(r, ts);
    forall x | x in n.Keys() ensures x in r.Keys() + set i | 0 <= i < |ts| :: ts[i] {
      var j :| 0 <= j < |n.Views| && n.Views[j].Type == x;
      if j < |r.Views| {
        assert r.Views[j].Type == x;
      } else {
        var k :| 0 <= k < |ts| && ts[k] == x;
      }
    }
    forall x | x in n.ProcessedKeys() ensures x in r.ProcessedKeys() {
      var j :| 0 <= j < |n.Views| && n.Views[j].Processed && n.Views[j].Type == x;
      assert j < |r.Views| && r.Views[j] == n.Views[j];
    }
    forall x | x in r.ProcessedKeys() ensures x in n.ProcessedKeys() {
      var j :| 0 <= j < |r.Views| && r.Views[j].Processed && r.Views[j].Type == x;
      assert n.Views[j] == r.Views[j];
    }
  }

  /** `Nullable.GetUnderlyingType(t) ?? t` */
  function Underlying(t: TypeDesc): (u: TypeDesc)
    requires t.WellFormed()
    ensures u.WellFormed()
  {
    if t.IsGenericType() && t.Definition.value.Is(NullableName) then t.GenericArguments[0] else t
  }

  /** The full names of the interfaces a constructed `IList<E>` or `IReadOnlyList<E>` can
      be assigned to when instantiated with the same element type. */
  const ListInterfaceNames: set<string> := {
    "System.Collections.Generic.IList`1", "System.Collections.Generic.ICollection`1",
    "System.Collections.Generic.IEnumerable`1", "System.Collections.Generic.IReadOnlyList`1",
    "System.Collections.Generic.IReadOnlyCollection`1"
  }

  /** A generic property type that a list of its first type argument can be assigned to. */
  predicate IsListInterface(t: TypeDesc)
    requires t.IsGenericType()
  {
    t.IsInterface && t.Definition.value.FullName.Some? && t.Definition.value.FullName.value in ListInterfaceNames
  }

  /** The types `WriteLastView` registers for one property, in order, and whether it gets
      through: an `Id` of type int registers nothing; otherwise the alternatives of an
      `object` element type come first (reading them may fail), then, unless the property
      is `_destroy`, the element type of a list interface or the (non-generic) property
      type. */
  function PropertyRegistrations(adapter: ApiAdapter, p: PropertyDesc): (r: (seq<TypeDesc>, bool))
    requires p.PropertyType.WellFormed()
    ensures !r.1 ==> r.0 == [] && adapter == Wa
  {
    var propertyType := Underlying(p.PropertyType);
    if p.Name == "Id" && propertyType.Is(Int32Name) then ([], true)
    else
      var elementType := if propertyType.IsGenericType() then propertyType.GenericArguments[0] else propertyType;
      var unions := if elementType.Is(ObjectName) then adapter.GetUnionTypes(p) else Success([]);
      match unions
      case Failure(_) => ([], false)
      case Success(alternatives) =>
        if p.Name == "_destroy" then (alternatives, true)
        else if propertyType.IsGenericType() then
          (if IsListInterface(propertyType) then alternatives + [elementType] else alternatives, true)
        else (alternatives + [propertyType], true)
  }

  /** The registrations of a view's properties, stopping at the first that fails. */
  function ViewRegistrations(adapter: ApiAdapter, props: seq<PropertyDesc>): (r: (seq<TypeDesc>, bool))
    requires forall i :: 0 <= i < |props| ==> props[i].PropertyType.WellFormed()
    decreases |props|
  {
    if props == [] then ([], true)
    else
      var before := ViewRegistrations(adapter, props[..|props| - 1]);
      if !before.1 then before
      else
        var step := PropertyRegistrations(adapter, props[|props| - 1]);
        (before.0 + step.0, step.1)
  }

  /** Every type the views of the metadata can register. */
  ghost function Universe(adapter: ApiAdapter, md: Metadata): set<TypeDesc>
    requires md.WellFormed()
  {
    set p, i, t | p in md.Properties && 0 <= i < |md.Properties[p]| &&
      t in PropertyRegistrations(adapter, md.Properties[p][i]).0 :: t
  }

  /** The types a view registers all lie in the universe. */
  lemma {:induction false} ViewRegistrationsInUniverse(adapter: ApiAdapter, md: Metadata, p: TypeDesc,
                                                       props: seq<PropertyDesc>)
    requires md.WellFormed() && p in md.Properties
    requires forall i :: 0 <= i < |props| ==> props[i] in md.Properties[p]
    requires forall i :: 0 <= i < |props| ==> props[i].PropertyType.WellFormed()
    ensures forall t :: t in ViewRegistrations(adapter, props).0 ==> t in Universe(adapter, md)
    decreases |props|
  {
    if props != [] {
      var last := props[|props| - 1];
      var k :| 0 <= k < |md.Properties[p]| && md.Properties[p][k] == last;
      forall t | t in PropertyRegistrations(adapter, last).0 ensures t in Universe(adapter, md) {
        assert t in PropertyRegistrations(adapter, md.Properties[p][k]).0;
      }
      ViewRegistrationsInUniverse(adapter, md, p, props[..|props| - 1]);
    }
  }

  /** One step of the worklist: the first pending view is marked processed, then its
      properties' types are registered. */
  function ViewStep(adapter: ApiAdapter, md: Metadata, r: Registry): (n: (Registry, bool))
    requires md.WellFormed() && FirstPending(r.Views).Some?
  {
    var t := r.Views[FirstPending(r.Views).value].Type;
    var props := md.PropertiesOf(t);
    var regs := ViewRegistrations(adapter, props);
    (RegisterAll(MarkFirstPending(r), regs.0), regs.1)
  }

  /** Each step processes exactly one pending view, never un-processes one, and adds only
      types of the universe: so the processed views grow strictly inside a finite bound,
      which is why the worklist terminates. */
  lemma StepProgress(adapter: ApiAdapter, md: Metadata, r: Registry)
    requires md.WellFormed() && r.Valid() && FirstPending(r.Views).Some?
    ensures var n := ViewStep(adapter, md, r).0;
      && n.Valid()
      && r.ProcessedKeys() < n.ProcessedKeys()
      && n.ProcessedKeys() <= n.Keys()
      && n.Keys() <= r.Keys() + Universe(adapter, md)
      && Extends(r.Views, n.Views)
  {
    var m := MarkFirstPending(r);
    MarkSpec(r);
    var regs := ViewRegistrations(adapter, md.PropertiesOf(r.Views[FirstPending(r.Views).value].Type)).0;
    RegisterAllSpec(m, regs);
    StepKeys(adapter, md, r);
    ProcessedInKeys(RegisterAll(m, regs));
  }

  /** A step adds only the types the processed view's properties register. */
  lemma StepKeys(adapter: ApiAdapter, md: Metadata, r: Registry)
    requires md.WellFormed() && r.Valid() && FirstPending(r.Views).Some?
    ensures ViewStep(adapter, md, r).0.Keys() <= r.Keys() + Universe(adapter, md)
  {
    var i := FirstPending(r.Views).value;
    var t := r.Views[i].Type;
    var m := MarkFirstPending(r);
    MarkSpec(r);
    var props := md.PropertiesOf(t);
    var regs := ViewRegistrations(adapter, props).0;
    RegisterAllKeys(m, regs);
    var n := RegisterAll(m, regs);
    forall x | x in n.Keys() ensures x in r.Keys() + Universe(adapter, md) {
      if x !in m.Keys() {
        var k :| 0 <= k < |regs| && regs[k] == x;
        if t in md.Properties {
          ViewRegistrationsInUniverse(adapter, md, t, props);
        }
      }
    }
  }

  /** The processed types of a registry are among its types. */
  lemma ProcessedInKeys(r: Registry)
    ensures r.ProcessedKeys() <= r.Keys()
  {
    forall x | x in r.ProcessedKeys() ensures x in r.Keys() {
      var j :| 0 <= j < |r.Views| && r.Views[j].Processed && r.Views[j].Type == x;
    }
  }

  /** A type is known to the registry: an enum in the enum set, any other type as a view. */
  predicate Known(r: Registry, t: TypeDesc) {
    if t.IsEnum then t in r.Enums else r.HasView(t)
  }

  /** `b` keeps every enum of `a` and every view entry of `a`, at its place. */
  predicate Grows(a: Registry, b: Registry) {
    a.Enums <= b.Enums && Extends(a.Views, b.Views)
  }

  /** What a registry knows, a registry that grows from it still knows. */
  lemma KnownGrows(a: Registry, b: Registry, t: TypeDesc)
    requires Grows(a, b) && Known(a, t)
    ensures Known(b, t)
  {
    if !t.IsEnum {
      var i :| 0 <= i < |a.Views| && a.Views[i].Type == t;
      assert b.Views[i].Type == t;
    }
  }

  /** Registering types grows the registry, which then knows each of them that is not a
      `System` type. */
  lemma {:induction false} RegisterAllKnows(r: Registry, ts: seq<TypeDesc>)
    requires r.Valid()
    ensures Grows(r, RegisterAll(r, ts))
    ensures forall t :: t in ts && !Ignored(t) ==> Known(RegisterAll(r, ts), t)
    decreases |ts|
  {
    if ts != [] {
      RegisterSpec(r, ts[0]);
      var m := Register(r, ts[0]);
      RegisterAllKnows(m, ts[1..]);
      var n := RegisterAll(m, ts[1..]);
      forall t | t in ts && !Ignored(t) ensures Known(n, t) {
        if t == ts[0] {
          KnownGrows(m, n, t);
        } else {
          assert t in ts[1..];
        }
      }
    }
  }

  /** Every type that the properties of the view `t` register, except `System` types, is
      known to `r`. */
  ghost predicate ViewClosed(adapter: ApiAdapter, md: Metadata, r: Registry, t: TypeDesc)
    requires md.WellFormed()
  {
    forall x :: x in ViewRegistrations(adapter, md.PropertiesOf(t)).0 && !Ignored(x) ==> Known(r, x)
  }

  /** Every processed view of `r` is closed: nothing it registers is missing from `r`. */
  ghost predicate Closed(adapter: ApiAdapter, md: Metadata, r: Registry)
    requires md.WellFormed()
  {
    forall i :: 0 <= i < |r.Views| && r.Views[i].Processed ==> ViewClosed(adapter, md, r, r.Views[i].Type)
  }

  lemma ViewClosedGrows(adapter: ApiAdapter, md: Metadata, a: Registry, b: Registry, t: TypeDesc)
    requires md.WellFormed() && Grows(a, b) && ViewClosed(adapter, md, a, t)
    ensures ViewClosed(adapter, md, b, t)
  {
    forall x | x in ViewRegistrations(adapter, md.PropertiesOf(t)).0 && !Ignored(x) ensures Known(b, x) {
      KnownGrows(a, b, x);
    }
  }

  /** Registering types processes nothing, so a closed registry stays closed. */
  lemma RegisterAllClosed(adapter: ApiAdapter, md: Metadata, r: Registry, ts: seq<TypeDesc>)
    requires md.WellFormed() && r.Valid() && Closed(adapter, md, r)
    ensures Closed(adapter, md, RegisterAll(r, ts))
  {
    RegisterAllSpec(r, ts);
    RegisterAllKnows(r, ts);
    var n := RegisterAll(r, ts);
    forall i | 0 <= i < |n.Views| && n.Views[i].Processed ensures ViewClosed(adapter, md, n, n.Views[i].Type) {
      assert n.Views[i] == r.Views[i];
      ViewClosedGrows(adapter, md, r, n, r.Views[i].Type);
    }
  }

  /** A step that succeeds grows the registry and keeps it closed: the view it processes
      has all its registrations made, and the views processed before stay closed. */
  lemma StepClosed(adapter: ApiAdapter, md: Metadata, r: Registry)
    requires md.WellFormed() && r.Valid() && FirstPending(r.Views).Some?
    ensures Grows(r, ViewStep(adapter, md, r).0)
    ensures Closed(adapter, md, r) && ViewStep(adapter, md, r).1 ==> Closed(adapter, md, ViewStep(adapter, md, r).0)
  {
    var p := FirstPending(r.Views).value;
    var m := MarkFirstPending(r);
    MarkSpec(r);
    var regs := ViewRegistrations(adapter, md.PropertiesOf(r.Views[p].Type)).0;
    RegisterAllSpec(m, regs);
    RegisterAllKnows(m, regs);
    var n := RegisterAll(m, regs);
    assert Grows(r, m);
    if Closed(adapter, md, r) && ViewStep(adapter, md, r).1 {
      forall i | 0 <= i < |n.Views| && n.Views[i].Processed ensures ViewClosed(adapter, md, n, n.Views[i].Type) {
        assert n.Views[i] == m.Views[i];
        if i != p {
          ViewClosedGrows(adapter, md, r, n, r.Views[i].Type);
        }
      }
    }
  }

  /** `LoadControllers`: the exported types, in order, that are classes named `...Controller`
      (but not `TypedController`) which the adapter recognises as controllers. */
  function LoadControllers(adapter: ApiAdapter, exported: seq<TypeDesc>): (r: seq<TypeDesc>)
    ensures forall i :: 0 <= i < |r| ==> (r[i] in exported && r[i].IsClass && r[i].Name != "TypedController" &&
                                          EndsWith(r[i].Name, "Controller") && adapter.IsController(r[i]))
    ensures forall t :: (t in exported && t.IsClass && t.Name != "TypedController" &&
                         EndsWith(t.Name, "Controller") && adapter.IsController(t)) ==> t in r
    decreases |exported|
  {
    if exported == [] then []
    else
      var t := exported[0];
      var rest := LoadControllers(adapter, exported[1..]);
      if t.Name != "TypedController" && t.IsClass && EndsWith(t.Name, "Controller") && adapter.IsController(t)
      then [t] + rest else rest
  }

  /** The types `WriteController` registers for one action, in order: its return type
      (unwrapped by the adapter, then by `CheckCollectionType`), then each parameter's type
      (unwrapped by `CheckCollectionType`). */
  function ActionRegistrations(adapter: ApiAdapter, m: MethodDesc): (r: seq<TypeDesc>)
    requires MethodWellFormed(m)
    ensures var returnType := CheckCollectionType(adapter.GetReturnType(m)).1;
      var h := if returnType.Some? then 1 else 0;
      && |r| == |m.Parameters| + h
      && (returnType.Some? ==> r[0] == returnType.value)
      && forall j :: 0 <= j < |m.Parameters| ==>
           r[h + j] == CheckCollectionType(Some(m.Parameters[j].ParameterType)).1.value
  {
    var returnType := CheckCollectionType(adapter.GetReturnType(m)).1;
    (if returnType.Some? then [returnType.value] else []) + ParameterRegistrations(m.Parameters)
  }

  /** Each parameter's type, unwrapped by `CheckCollectionType`. */
  function ParameterRegistrations(ps: seq<ParameterDesc>): (r: seq<TypeDesc>)
    requires forall j :: 0 <= j < |ps| ==> ps[j].ParameterType.WellFormed()
    ensures |r| == |ps|
    ensures forall j :: 0 <= j < |ps| ==> r[j] == CheckCollectionType(Some(ps[j].ParameterType)).1.value
    decreases |ps|
  {
    if ps == [] then []
    else [CheckCollectionType(Some(ps[0].ParameterType)).1.value] + ParameterRegistrations(ps[1..])
  }

  /** A public, ordinary method that the adapter takes for an action. */
  predicate IsWrittenAction(adapter: ApiAdapter, m: MethodDesc) {
    m.IsPublic && !m.IsSpecialName && adapter.IsAction(m)
  }

  /** The registrations of a controller's actions, stopping after the first action without
      a route (whose route the source dereferences while null). */
  function ActionsRegistrations(adapter: ApiAdapter, ms: seq<MethodDesc>): (r: (seq<TypeDesc>, bool))
    requires forall j :: 0 <= j < |ms| ==> MethodWellFormed(ms[j])
    ensures adapter == Mvc ==> r.1
    decreases |ms|
  {
    if ms == [] then ([], true)
    else
      var before := ActionsRegistrations(adapter, ms[..|ms| - 1]);
      var m := ms[|ms| - 1];
      if !before.1 || !IsWrittenAction(adapter, m) then before
      else (before.0 + ActionRegistrations(adapter, m), adapter.GetRouteFormat(m).Some?)
  }

  /** The registrations of a controller. One without a route prefix registers nothing.
      Otherwise its actions register their types, and it fails when an action has no route
      or when its name without `Controller` is empty, since the closing
      `export var ...` line camelizes that name. */
  function ControllerRegistrations(adapter: ApiAdapter, md: Metadata, t: TypeDesc): (r: (seq<TypeDesc>, bool))
    requires md.WellFormed()
    ensures ControllerPrefix(adapter, t).None? ==> r == ([], true)
    ensures ControllerPrefix(adapter, t).Some? ==> r.0 == ActionsRegistrations(adapter, md.MethodsOf(t)).0
  {
    if ControllerPrefix(adapter, t).None? then ([], true)
    else
      var actions := ActionsRegistrations(adapter, md.MethodsOf(t));
      (actions.0, actions.1 && ReplaceAll(t.Name, "Controller", "") != "")
  }

  /** A routed class named `Controller` fails: removing `Controller` leaves an empty name,
      whose first character `Camelize` reads. */
  lemma ControllerNamedControllerFails(adapter: ApiAdapter, md: Metadata, t: TypeDesc)
    requires md.WellFormed() && t.Name == "Controller" && adapter.GetRoutePrefixName(t).Some?
    ensures !ControllerRegistrations(adapter, md, t).1
  {
    ReplaceAtStart("Controller", "", "");
    assert "Controller" + "" == t.Name;
  }

  /** The registrations of the controllers walked in order, stopping after the first that
      fails. */
  function ControllersRegistrations(adapter: ApiAdapter, md: Metadata, cs: seq<TypeDesc>): (r: (seq<TypeDesc>, bool))
    requires md.WellFormed()
    decreases |cs|
  {
    if cs == [] then ([], true)
    else
      var before := ControllersRegistrations(adapter, md, cs[..|cs| - 1]);
      if !before.1 then before
      else
        var last := ControllerRegistrations(adapter, md, cs[|cs| - 1]);
        (before.0 + last.0, last.1)
  }

  /** The walk of the controllers succeeds exactly when every controller does. */
  lemma {:induction false} ControllersRegistrationsSucceed(adapter: ApiAdapter, md: Metadata, cs: seq<TypeDesc>)
    requires md.WellFormed()
    ensures ControllersRegistrations(adapter, md, cs).1 <==>
      forall i :: 0 <= i < |cs| ==> ControllerRegistrations(adapter, md, cs[i]).1
    decreases |cs|
  {
    if cs != [] {
      var n := |cs| - 1;
      var front := cs[..n];
      ControllersRegistrationsSucceed(adapter, md, front);
      var before := ControllersRegistrations(adapter, md, front);
      if before.1 {
        forall i | 0 <= i < n ensures ControllerRegistrations(adapter, md, cs[i]).1 {
          assert front[i] == cs[i];
        }
      } else {
        var i :| 0 <= i < n && !ControllerRegistrations(adapter, md, front[i]).1;
        assert front[i] == cs[i];
      }
    }
  }

  /** The converter: its adapter, the reflection it reads, and the registry it fills. */
  class Converter {
    const adapter: ApiAdapter
    const metadata: Metadata
    var enums: set<TypeDesc>
    var views: seq<ViewEntry>

    /** The registry as a value. */
    function State(): Registry
      reads this
    {
      Registry(enums, views)
    }

    ghost predicate Valid()
      reads this
    {
      metadata.WellFormed() && State().Valid()
    }

    constructor(adapter: ApiAdapter, metadata: Metadata)
      requires metadata.WellFormed()
      ensures Valid() && this.adapter == adapter && this.metadata == metadata
      ensures enums == {} && views == []
    {
      this.adapter := adapter;
      this.metadata := metadata;
      enums := {};
      views := [];
    }

    /** `RegisterType` */
    method RegisterType(t: TypeDesc)
      requires Valid()
      modifies this`enums, this`views
      ensures Valid()
      ensures State() == Register(old(State()), t)
    {
      RegisterSpec(State(), t);
      if t.Namespace == Some("System") {
        return;
      }
      if t.IsEnum {
        if t !in enums {
          enums := enums + {t};
        }
        return;
      }
      if !State().HasView(t) {
        views := views + [ViewEntry(t, false)];
      }
    }

    /** `RegisterType` on each of `ts` in turn. */
    method RegisterEach(ts: seq<TypeDesc>)
      requires Valid()
      modifies this`enums, this`views
      ensures Valid()
      ensures State() == RegisterAll(old(State()), ts)
    {
      ghost var start := State();
      for k := 0 to |ts|
        invariant Valid()
        invariant State() == RegisterAll(start, ts[..k])
      {
        RegisterAllAppend(start, ts[..k], [ts[k]]);
        assert ts[..k + 1] == ts[..k] + [ts[k]];
        RegisterType(ts[k]);
      }
      assert ts[..|ts|] == ts;
    }

    /** The registrations `WriteLastView` makes for one property, through the same branches
        as the source; false when reading the property's alternatives fails. */
    method RegisterPropertyTypes(p: PropertyDesc) returns (ok: bool)
      requires Valid() && p.PropertyType.WellFormed()
      modifies this`enums, this`views
      ensures Valid()
      ensures ok == PropertyRegistrations(adapter, p).1
      ensures State() == RegisterAll(old(State()), PropertyRegistrations(adapter, p).0)
    {
      var propertyType := Underlying(p.PropertyType);
      if p.Name == "Id" && propertyType.Is(Int32Name) {
        return true;
      }
      var elementType := if propertyType.IsGenericType() then propertyType.GenericArguments[0] else propertyType;
      var alternatives: seq<TypeDesc> := [];
      if elementType.Is(ObjectName) {
        var unions := adapter.GetUnionTypes(p);
        if unions.Failure? {
          return false;
        }
        alternatives := unions.value;
      }
      RegisterEach(alternatives);
      ghost var afterUnions := State();
      var last: seq<TypeDesc> := [];
      if p.Name == "_destroy" {
      } else if propertyType.IsGenericType() {
        if IsListInterface(propertyType) {
          last := [elementType];
        }
      } else {
        last := [propertyType];
      }
      RegisterEach(last);
      RegisterAllAppend(old(State()), alternatives, last);
      ok := true;
    }

    /** `WriteLastView`: the first pending view is marked processed and the types of its
        properties are registered; false when a property's alternatives cannot be read.
        The view's text is not modelled. */
    method WriteLastView() returns (ok: bool)
      requires Valid() && FirstPending(views).Some?
      modifies this`enums, this`views
      ensures Valid()
      ensures (State(), ok) == ViewStep(adapter, metadata, old(State()))
    {
      var i := FirstPending(views).value;
      var t := views[i].Type;
      MarkSpec(State());
      views := views[i := ViewEntry(t, true)];
      var props := metadata.PropertiesOf(t);
      ghost var marked := State();
      ok := true;
      var k := 0;
      while k < |props|
        invariant 0 <= k <= |props|
        invariant Valid()
        invariant ok ==> (State() == RegisterAll(marked, ViewRegistrations(adapter, props[..k]).0) &&
                          ViewRegistrations(adapter, props[..k]).1)
        invariant !ok ==> (State(), ok) == (RegisterAll(marked, ViewRegistrations(adapter, props).0),
          ViewRegistrations(adapter, props).1)
        decreases |props| - k, ok
      {
        if !ok {
          break;
        }
        ghost var before := State();
        var propertyOk := RegisterPropertyTypes(props[k]);
        ViewRegistrationsSnoc(adapter, props, k);
        RegisterAllAppend(marked, ViewRegistrations(adapter, props[..k]).0, PropertyRegistrations(adapter, props[k]).0);
        if !propertyOk {
          ok := false;
          ViewRegistrationsStop(adapter, props, k + 1);
        } else {
          k := k + 1;
        }
      }
      if ok {
        assert props[..|props|] == props;
      }
    }

    /** The `Write` worklist: `WriteLastView` while some view is pending. It stops early,
        returning false, when a view's alternatives cannot be read. It adds only types the
        views can register, and keeps every enum and every entry. When it succeeds from a
        registry whose processed views are closed, every view is processed and closed: each
        type a view's properties register is known. */
    method ProcessViews() returns (ok: bool)
      requires Valid()
      modifies this`enums, this`views
      ensures Valid()
      ensures Grows(old(State()), State())
      ensures State().Keys() <= old(State().Keys()) + Universe(adapter, metadata)
      ensures ok ==> forall i :: 0 <= i < |views| ==> views[i].Processed
      ensures ok && Closed(adapter, metadata, old(State())) ==> Closed(adapter, metadata, State())
    {
      ghost var start := State();
      ghost var bound := State().Keys() + Universe(adapter, metadata);
      ok := true;
      while FirstPending(views).Some?
        invariant Valid()
        invariant State().Keys() <= bound
        invariant State().ProcessedKeys() <= State().Keys()
        invariant Grows(start, State())
        invariant Closed(adapter, metadata, start) ==> Closed(adapter, metadata, State())
        decreases |bound - State().ProcessedKeys()|
      {
        ghost var before := State();
        StepProgress(adapter, metadata, before);
        StepClosed(adapter, metadata, before);
        ok := WriteLastView();
        ghost var after := State();
        assert after == ViewStep(adapter, metadata, before).0;
        ExtendsTransitive(start.Views, before.Views, after.Views);
        Shrinks(bound, before.ProcessedKeys(), after.ProcessedKeys());
        if !ok {
          return;
        }
      }
    }

    /** The registrations `WriteController` makes: for each action of a controller with a
        route prefix, its return and parameter types; false when an action has no route. */
    method WriteController(t: TypeDesc) returns (ok: bool)
      requires Valid()
      modifies this`enums, this`views
      ensures Valid()
      ensures ok == ControllerRegistrations(adapter, metadata, t).1
      ensures State() == RegisterAll(old(State()), ControllerRegistrations(adapter, metadata, t).0)
    {
      var routePrefix := ControllerPrefix(adapter, t);
      if routePrefix.None? {
        return true;
      }
      var methods := metadata.MethodsOf(t);
      ghost var start := State();
      var k := 0;
      while k < |methods|
        invariant 0 <= k <= |methods|
        invariant Valid()
        invariant State() == RegisterAll(start, ActionsRegistrations(adapter, methods[..k]).0)
        invariant ActionsRegistrations(adapter, methods[..k]).1
      {
        ok := WriteControllerMethod(methods, k, start);
        if !ok {
          return;
        }
        k := k + 1;
      }
      assert methods[..|methods|] == methods;
      ok := ReplaceAll(t.Name, "Controller", "") != "";
    }

    /** One turn of `WriteController`'s loop: the `k`-th public method, when it is a
        written action, registers its return and parameter types. False when its route
        format is missing, which ends the walk. */
    method WriteControllerMethod(methods: seq<MethodDesc>, k: nat, ghost start: Registry) returns (ok: bool)
      requires Valid() && k < |methods| && forall j :: 0 <= j < |methods| ==> MethodWellFormed(methods[j])
      requires State() == RegisterAll(start, ActionsRegistrations(adapter, methods[..k]).0)
      requires ActionsRegistrations(adapter, methods[..k]).1
      modifies this`enums, this`views
      ensures Valid()
      ensures ok ==> State() == RegisterAll(start, ActionsRegistrations(adapter, methods[..k + 1]).0) &&
                     ActionsRegistrations(adapter, methods[..k + 1]).1
      ensures !ok ==> State() == RegisterAll(start, ActionsRegistrations(adapter, methods).0) &&
                      !ActionsRegistrations(adapter, methods).1
    {
      var m := methods[k];
      ActionsRegistrationsSnoc(adapter, methods, k);
      ok := true;
      if IsWrittenAction(adapter, m) {
        RegisterAllAppend(start, ActionsRegistrations(adapter, methods[..k]).0, ActionRegistrations(adapter, m));
        RegisterEach(ActionRegistrations(adapter, m));
        if adapter.GetRouteFormat(m).None? {
          ok := false;
          ActionsRegistrationsStop(adapter, methods, k + 1);
        }
      }
    }

    /** `Write` without its file output: every controller the adapter recognises among the
        exported types is walked in order, registering what `ControllersRegistrations`
        states; then the views are processed until none is pending. False when a step
        throws. */
    method Write(exported: seq<TypeDesc>) returns (ok: bool)
      requires Valid()
      modifies this`enums, this`views
      ensures Valid()
      ensures var regs := ControllersRegistrations(adapter, metadata, LoadControllers(adapter, exported));
        var registered := RegisterAll(old(State()), regs.0);
        && (!regs.1 ==> !ok && State() == registered)
        && (regs.1 ==> Grows(registered, State()) &&
                       State().Keys() <= registered.Keys() + Universe(adapter, metadata))
      ensures ok ==> forall i :: 0 <= i < |views| ==> views[i].Processed
      ensures ok && Closed(adapter, metadata, old(State())) ==> Closed(adapter, metadata, State())
    {
      var controllers := LoadControllers(adapter, exported);
      ghost var start := State();
      for k := 0 to |controllers|
        invariant Valid()
        invariant State() == RegisterAll(start, ControllersRegistrations(adapter, metadata, controllers[..k]).0)
        invariant ControllersRegistrations(adapter, metadata, controllers[..k]).1
      {
        ControllersRegistrationsSnoc(adapter, metadata, controllers, k);
        RegisterAllAppend(start, ControllersRegistrations(adapter, metadata, controllers[..k]).0,
                          ControllerRegistrations(adapter, metadata, controllers[k]).0);
        ok := WriteController(controllers[k]);
        if !ok {
          ControllersRegistrationsStop(adapter, metadata, controllers, k + 1);
          return;
        }
      }
      assert controllers[..|controllers|] == controllers;
      if Closed(adapter, metadata, start) {
        RegisterAllClosed(adapter, metadata, start, ControllersRegistrations(adapter, metadata, controllers).0);
      }
      ok := ProcessViews();
    }
  }

  /** A set that grows strictly inside a finite bound leaves less of the bound. */
  lemma Shrinks(bound: set<TypeDesc>, before: set<TypeDesc>, after: set<TypeDesc>)
    requires before < after <= bound
    ensures |bound - after| < |bound - before|
  {
    var x :| x in after && x !in before;
    assert bound - before == (bound - after) + (bound - before - (bound - after));
    assert x in bound - before - (bound - after);
  }

  /** Every entry of `a` is still at its place in `b`, and still processed if it was. */
  predicate Extends(a: seq<ViewEntry>, b: seq<ViewEntry>) {
    |a| <= |b| && forall i :: 0 <= i < |a| ==> b[i].Type == a[i].Type && (a[i].Processed ==> b[i].Processed)
  }

  lemma ExtendsTransitive(a: seq<ViewEntry>, b: seq<ViewEntry>, c: seq<ViewEntry>)
    requires Extends(a, b) && Extends(b, c)
    ensures Extends(a, c)
  {
  }

  /** Extending a prefix of the properties by one property. */
  lemma ViewRegistrationsSnoc(adapter: ApiAdapter, props: seq<PropertyDesc>, k: nat)
    requires k < |props|
    requires forall i :: 0 <= i < |props| ==> props[i].PropertyType.WellFormed()
    requires ViewRegistrations(adapter, props[..k]).1
    ensures var before := ViewRegistrations(adapter, props[..k]);
      var step := PropertyRegistrations(adapter, props[k]);
      ViewRegistrations(adapter, props[..k + 1]) == (before.0 + step.0, step.1)
  {
    assert props[..k + 1][..k] == props[..k];
  }

  /** After a failing property the later properties are not looked at. */
  lemma {:induction false} ViewRegistrationsStop(adapter: ApiAdapter, props: seq<PropertyDesc>, k: nat)
    requires k <= |props|
    requires forall i :: 0 <= i < |props| ==> props[i].PropertyType.WellFormed()
    requires !ViewRegistrations(adapter, props[..k]).1
    ensures ViewRegistrations(adapter, props) == ViewRegistrations(adapter, props[..k])
    decreases |props|
  {
    if k == |props| {
      assert props[..k] == props;
    } else {
      var shorter := props[..|props| - 1];
      assert shorter[..k] == props[..k];
      ViewRegistrationsStop(adapter, shorter, k);
    }
  }

  /** Extending a prefix of the methods by one method. */
  lemma ActionsRegistrationsSnoc(adapter: ApiAdapter, ms: seq<MethodDesc>, k: nat)
    requires k < |ms|
    requires forall j :: 0 <= j < |ms| ==> MethodWellFormed(ms[j])
    requires ActionsRegistrations(adapter, ms[..k]).1
    ensures var before := ActionsRegistrations(adapter, ms[..k]);
      ActionsRegistrations(adapter, ms[..k + 1]) ==
        if !IsWrittenAction(adapter, ms[k]) then before
        else (before.0 + ActionRegistrations(adapter, ms[k]), adapter.GetRouteFormat(ms[k]).Some?)
  {
    assert ms[..k + 1][..k] == ms[..k];
  }

  /** After an action without a route the later methods are not looked at. */
  lemma {:induction false} ActionsRegistrationsStop(adapter: ApiAdapter, ms: seq<MethodDesc>, k: nat)
    requires k <= |ms|
    requires forall j :: 0 <= j < |ms| ==> MethodWellFormed(ms[j])
    requires !ActionsRegistrations(adapter, ms[..k]).1
    ensures ActionsRegistrations(adapter, ms) == ActionsRegistrations(adapter, ms[..k])
    decreases |ms|
  {
    if k == |ms| {
      assert ms[..k] == ms;
    } else {
      var shorter := ms[..|ms| - 1];
      assert shorter[..k] == ms[..k];
      ActionsRegistrationsStop(adapter, shorter, k);
    }
  }

  /** Extending a prefix of the controllers by one controller. */
  lemma ControllersRegistrationsSnoc(adapter: ApiAdapter, md: Metadata, cs: seq<TypeDesc>, k: nat)
    requires md.WellFormed() && k < |cs|
    requires ControllersRegistrations(adapter, md, cs[..k]).1
    ensures var before := ControllersRegistrations(adapter, md, cs[..k]);
      var step := ControllerRegistrations(adapter, md, cs[k]);
      ControllersRegistrations(adapter, md, cs[..k + 1]) == (before.0 + step.0, step.1)
  {
    assert cs[..k + 1][..k] == cs[..k];
  }

  /** After a failing controller the later controllers are not walked. */
  lemma {:induction false} ControllersRegistrationsStop(adapter: ApiAdapter, md: Metadata, cs: seq<TypeDesc>, k: nat)
    requires md.WellFormed() && k <= |cs|
    requires !ControllersRegistrations(adapter, md, cs[..k]).1
    ensures ControllersRegistrations(adapter, md, cs) == ControllersRegistrations(adapter, md, cs[..k])
    decreases |cs|
  {
    if k == |cs| {
      assert cs[..k] == cs;
    } else {
      var shorter := cs[..|cs| - 1];
      assert shorter[..k] == cs[..k];
      ControllersRegistrationsStop(adapter, md, shorter, k);
    }
  }
}
