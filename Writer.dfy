/** `TypeScriptWriter` (src/Folke.CsTsService/TypeScriptWriter.cs): the methods that append
    TypeScript text to a `StringBuilder`, set `Dependencies` flags and fill `OutputModules`.
    Each method is proved to append exactly the text that `TypeScriptText` defines. */
module Writer {
  import opened Wrappers
  import opened Text
  import opened Nodes
  import opened StringBuilders
  import opened TypeScriptText
  import opened StringHelpers
  import opened ControllerText
  import opened KoValidation

  /** The writer's private `Dependencies` class: which modules and helper functions the
      text written so far makes use of, and which module prefixes type names get. */
  class Dependencies {
    var ToDate: bool
    var FromDate: bool
    var ArrayChanged: bool
    var DateArrayChanged: bool
    var ValidationModule: bool
    var KoViews: bool
    var Views: bool
    const PrefixModules: PrefixModules

    /** `new Dependencies { PrefixModules = prefix }`: every flag down. */
    constructor (prefix: PrefixModules)
      ensures PrefixModules == prefix
      ensures !ToDate && !FromDate && !ArrayChanged && !DateArrayChanged
      ensures !ValidationModule && !KoViews && !Views
    {
      ToDate := false;
      FromDate := false;
      ArrayChanged := false;
      DateArrayChanged := false;
      ValidationModule := false;
      KoViews := false;
      Views := false;
      PrefixModules := prefix;
    }
  }

  /** Every graph class in `s` has answered `HasReadOnly`. */
  ghost predicate Settled(g: Graph, s: set<ClassNode>)
    reads g.classes`hasReadonly
  {
    forall c :: c in s && c in g.classes ==> c.hasReadonly.Some?
  }

  /** The classes whose `HasReadOnly` has answered true. */
  ghost function EditClasses(g: Graph): set<ClassNode>
    reads g.classes`hasReadonly
  {
    set c | c in g.classes && c.hasReadonly == Some(true)
  }

  /** Writing elsewhere than into the `hasReadonly` caches keeps the edit set. */
  twostate lemma EditSame(g: Graph)
    requires unchanged(g.classes)
    ensures EditClasses(g) == old(EditClasses(g))
  {
  }

  /** Classes that had answered `HasReadOnly` are in the edit set after exactly when they
      were before, and stay answered. */
  twostate lemma EditKept(g: Graph, new s: set<ClassNode>)
    requires forall c :: c in s && c in g.classes ==> old(c.hasReadonly).Some?
    requires forall c :: c in g.classes && old(c.hasReadonly).Some? ==> c.hasReadonly == old(c.hasReadonly)
    ensures Settled(g, s)
    ensures forall c :: c in s ==> (c in old(EditClasses(g)) <==> c in EditClasses(g))
  {
  }

  /** The state of `WriteProperties` after the first `n` properties: the written ones are
      those `written`, their lines are joined by empty lines after `o`, and the flags say
      whether they use the views modules. */
  ghost predicate PropertiesWritten(g: Graph, props: seq<PropertyNode>, n: nat, written: seq<PropertyNode>,
                                    first: bool, edition: bool, result: StringBuilder, deps: Dependencies,
                                    o: string, views: bool, koViews: bool)
    reads result, deps, g.classes`hasReadonly
  {
    n <= |props| && written == WrittenProperties(props[..n], edition) &&
    PropertiesInGraph(g, written) && (first <==> written == []) &&
    (edition ==> Settled(g, PropertiesClasses(g, written))) &&
    result.Text == o + Join(NewLine, PropertyTexts(g, written, edition, deps.PrefixModules, EditClasses(g))) &&
    deps.Views == (views || (deps.PrefixModules.Views && PropertiesUseViews(g, written))) &&
    deps.KoViews == (koViews || (deps.PrefixModules.KoViews && PropertiesUseKoViews(g, written)))
  }

  /** Before the first property, nothing is written. */
  lemma PropertiesWrittenNone(g: Graph, props: seq<PropertyNode>, edition: bool, result: StringBuilder,
                              deps: Dependencies)
    ensures PropertiesWritten(g, props, 0, [], true, edition, result, deps,
                              result.Text, deps.Views, deps.KoViews)
  {
    assert props[..0] == [];
  }

  /** After the last property, the written ones are those `WrittenProperties` keeps. */
  lemma PropertiesWrittenAll(g: Graph, props: seq<PropertyNode>, written: seq<PropertyNode>, first: bool,
                             edition: bool, result: StringBuilder, deps: Dependencies,
                             o: string, views: bool, koViews: bool)
    requires PropertiesWritten(g, props, |props|, written, first, edition, result, deps, o, views, koViews)
    ensures written == WrittenProperties(props, edition)
    ensures PropertiesInGraph(g, WrittenProperties(props, edition))
    ensures edition ==> Settled(g, PropertiesClasses(g, WrittenProperties(props, edition)))
    ensures result.Text ==
      o + Join(NewLine, PropertyTexts(g, WrittenProperties(props, edition), edition, deps.PrefixModules, EditClasses(g)))
    ensures deps.Views == (views || (deps.PrefixModules.Views && PropertiesUseViews(g, WrittenProperties(props, edition))))
    ensures deps.KoViews ==
      (koViews || (deps.PrefixModules.KoViews && PropertiesUseKoViews(g, WrittenProperties(props, edition))))
  {
    assert props[..|props|] == props;
  }

  /** The state of `WriteTypeList` after the first `n` types: their classes have answered
      `HasReadOnly`, their texts follow `o` joined by `sep`, and the flags say whether they
      use the views modules. */
  ghost predicate TypesWritten(g: Graph, parent: TypeNode, ts: seq<TypeNode>, n: nat, edition: bool,
                               allowObservable: bool, sep: string, result: StringBuilder, deps: Dependencies,
                               o: string, views: bool, koViews: bool)
    requires forall i :: 0 <= i < |ts| ==> ts[i] < parent && TypeInGraph(g, ts[i])
    reads result, deps, g.classes`hasReadonly
  {
    n <= |ts| &&
    (edition ==> Settled(g, ListClasses(g, parent, ts[..n]))) &&
    result.Text == o + Join(sep, TypeTexts(g, parent, ts[..n], edition, allowObservable, deps.PrefixModules,
                                           EditClasses(g))) &&
    deps.Views == (views || (deps.PrefixModules.Views && AnyUsesViews(g, parent, ts[..n], allowObservable))) &&
    deps.KoViews == (koViews || (deps.PrefixModules.KoViews && AnyUsesKoViews(g, parent, ts[..n], allowObservable)))
  }

  /** Before the first type nothing is written. */
  lemma TypesWrittenNone(g: Graph, parent: TypeNode, ts: seq<TypeNode>, edition: bool, allowObservable: bool,
                         sep: string, result: StringBuilder, deps: Dependencies)
    requires forall i :: 0 <= i < |ts| ==> ts[i] < parent && TypeInGraph(g, ts[i])
    ensures TypesWritten(g, parent, ts, 0, edition, allowObservable, sep, result, deps,
                         result.Text, deps.Views, deps.KoViews)
  {
    assert ts[..0] == [];
  }

  /** After the last type, all of them are written. */
  lemma TypesWrittenAll(g: Graph, parent: TypeNode, ts: seq<TypeNode>, edition: bool, allowObservable: bool,
                        sep: string, result: StringBuilder, deps: Dependencies, o: string, views: bool,
                        koViews: bool)
    requires forall i :: 0 <= i < |ts| ==> ts[i] < parent && TypeInGraph(g, ts[i])
    requires TypesWritten(g, parent, ts, |ts|, edition, allowObservable, sep, result, deps, o, views, koViews)
    ensures edition ==> Settled(g, ListClasses(g, parent, ts))
    ensures result.Text == o + Join(sep, TypeTexts(g, parent, ts, edition, allowObservable, deps.PrefixModules,
                                                   EditClasses(g)))
    ensures deps.Views == (views || (deps.PrefixModules.Views && AnyUsesViews(g, parent, ts, allowObservable)))
    ensures deps.KoViews == (koViews || (deps.PrefixModules.KoViews && AnyUsesKoViews(g, parent, ts, allowObservable)))
  {
    assert ts[..|ts|] == ts;
  }

  /** The state of `WriteParameters` after the first `n` parameters: their classes have
      answered `HasReadOnly`, their texts follow `o` joined by ", ", and the flags say
      whether they use the views modules. */
  ghost predicate ParametersWritten(g: Graph, ps: seq<ParameterNode>, n: nat, knockout: bool, result: StringBuilder,
                                    deps: Dependencies, o: string, views: bool, koViews: bool)
    reads result, deps, g.classes`hasReadonly
  {
    n <= |ps| && ParametersInGraph(g, ps) &&
    Settled(g, ParametersClasses(g, ps[..n])) &&
    result.Text == o + Join(", ", ParameterTexts(g, ps[..n], knockout, deps.PrefixModules, EditClasses(g))) &&
    deps.Views == (views || (deps.PrefixModules.Views && ParametersUseViews(g, ps[..n], knockout))) &&
    deps.KoViews == (koViews || (deps.PrefixModules.KoViews && ParametersUseKoViews(g, ps[..n], knockout)))
  }

  /** The state of `WriteActions` after the first `n` actions: their classes have answered,
      their texts follow `o`, and the flags say whether they use the views modules. */
  ghost predicate ActionsWritten(g: Graph, actions: seq<ActionNode>, n: nat, knockout: bool, result: StringBuilder,
                                 deps: Dependencies, o: string, views: bool, koViews: bool)
    reads result, deps, g.classes`hasReadonly
  {
    n <= |actions| && ActionsInGraph(g, actions) &&
    Settled(g, ActionsClasses(g, actions, n)) &&
    result.Text == o + ActionsText(g, actions, n, knockout, deps.PrefixModules, EditClasses(g)) &&
    deps.Views == (views || (deps.PrefixModules.Views && ActionsUseViews(g, actions, n, knockout))) &&
    deps.KoViews == (koViews || (deps.PrefixModules.KoViews && ActionsUseKoViews(g, actions, n, knockout)) ||
                     ActionsConvertToKo(actions, n, knockout))
  }

  /** The state of `WriteControllers` after the first `i` controllers: their keys were new,
      their classes have answered, and `modules` holds `m` with their modules added. */
  ghost predicate ControllersWritten(g: Graph, cs: seq<ActionsGroupNode>, i: nat, knockout: bool, helpers: string,
                                     m: map<string, string>, modules: map<string, string>)
    reads g.classes`hasReadonly
  {
    i <= |cs| && (forall j :: 0 <= j < |cs| ==> ControllerInGraph(g, cs[j])) &&
    FreshKeys(m, ControllerKeys(cs, knockout)[..i]) && Settled(g, ControllersClasses(g, cs, i)) &&
    modules == ControllerModules(m, g, cs, i, knockout, helpers, EditClasses(g))
  }

  /** Before the first controller, nothing is written. */
  lemma ControllersWrittenNone(g: Graph, cs: seq<ActionsGroupNode>, knockout: bool, helpers: string,
                               m: map<string, string>)
    requires forall j :: 0 <= j < |cs| ==> ControllerInGraph(g, cs[j])
    ensures ControllersWritten(g, cs, 0, knockout, helpers, m, m)
  {
    assert ControllerKeys(cs, knockout)[..0] == [];
  }

  /** After the last controller, every key was new and every module is added. */
  lemma ControllersWrittenAll(g: Graph, cs: seq<ActionsGroupNode>, knockout: bool, helpers: string,
                              m: map<string, string>, modules: map<string, string>)
    requires ControllersWritten(g, cs, |cs|, knockout, helpers, m, modules)
    ensures FreshKeys(m, ControllerKeys(cs, knockout)) && Settled(g, ControllersClasses(g, cs, |cs|))
    ensures modules == ControllerModules(m, g, cs, |cs|, knockout, helpers, EditClasses(g))
  {
    var keys := ControllerKeys(cs, knockout);
    assert keys[..|cs|] == keys;
  }

  /** One more action written: its classes have answered, its text follows the others' and
      its flags join theirs. */
  lemma ActionsWrittenNext(g: Graph, actions: seq<ActionNode>, i: nat, knockout: bool, result: StringBuilder,
                           deps: Dependencies, o: string, views: bool, koViews: bool)
    requires i < |actions| && ActionsInGraph(g, actions)
    requires Settled(g, ActionsClasses(g, actions, i)) && Settled(g, ParametersClasses(g, actions[i].Parameters))
    requires result.Text == o + ActionsText(g, actions, i, knockout, deps.PrefixModules, EditClasses(g)) +
      ActionText(g, MethodName(actions, i), actions[i], knockout, deps.PrefixModules, EditClasses(g))
    requires deps.Views == (views || (deps.PrefixModules.Views && ActionsUseViews(g, actions, i, knockout)) ||
      (deps.PrefixModules.Views && ActionUsesViews(g, actions[i], knockout)))
    requires deps.KoViews == (koViews || (deps.PrefixModules.KoViews && ActionsUseKoViews(g, actions, i, knockout)) ||
      ActionsConvertToKo(actions, i, knockout) ||
      (deps.PrefixModules.KoViews && ActionUsesKoViews(g, actions[i], knockout)) ||
      ConvertsToKo(actions[i].Return, knockout))
    ensures ActionsWritten(g, actions, i + 1, knockout, result, deps, o, views, koViews)
  {
    AppendAssoc(o, ActionsText(g, actions, i, knockout, deps.PrefixModules, EditClasses(g)),
                ActionText(g, MethodName(actions, i), actions[i], knockout, deps.PrefixModules, EditClasses(g)));
  }

  class TypeScriptWriter {
    /** The module the controllers import their fetch helpers from. */
    const ServiceHelpersModule: string
    /** The module of the knockout validators. */
    const ValidationModule: string
    /** The generated modules, by key: the path of the file without its extension. */
    var OutputModules: map<string, string>

    /** The constructor, with the default module names. */
    constructor (serviceHelpersModule: string := "folke-ko-service-helpers",
                 validationModule: string := "folke-ko-validation")
      ensures ServiceHelpersModule == serviceHelpersModule && ValidationModule == validationModule
      ensures OutputModules == map[]
    {
      ServiceHelpersModule := serviceHelpersModule;
      ValidationModule := validationModule;
      OutputModules := map[];
    }

    /** `WriteType`: appends the text of the type. In edition mode it asks `HasReadOnly` of
        every class it names (filling their caches), and the text it appends is the one for
        the classes whose answer was true. It raises the `Views`/`KoViews` flags of the
        dependencies exactly when it writes a `views.`/`koViews.` prefix. */
    method WriteType(ghost g: Graph, t: TypeNode, result: StringBuilder, edition: bool,
                     deps: Dependencies, allowObservable: bool, notACollection: bool)
      requires Closed(g) && CacheSound(g) && TypeInGraph(g, t)
      modifies result, deps`Views, deps`KoViews, g.classes`hasReadonly, g.props`hasReadonly
      ensures CacheSound(g) && CachesKept(g)
      ensures edition ==> Settled(g, ObjectClasses(g, t))
      ensures result.Text == old(result.Text) +
        TypeText(g, t, edition, allowObservable, notACollection, deps.PrefixModules, EditClasses(g))
      ensures deps.Views == (old(deps.Views) || (deps.PrefixModules.Views && UsesViews(g, t, allowObservable)))
      ensures deps.KoViews ==
        (old(deps.KoViews) || (deps.PrefixModules.KoViews && UsesKoViews(g, t, allowObservable)))
      decreases t, 3
    {
      ghost var open := if t.IsDictionary() then "{ [key: string]: " else "";
      if t.IsDictionary() {
        result.Append("{ [key: string]: ");
      }
      ghost var start := result.Text;
      assert start == old(result.Text) + open;
      WriteBase(g, t, result, edition, deps, allowObservable);
      label Based:
      ghost var kind := KindText(g, t, edition, allowObservable, deps.PrefixModules, EditClasses(g));
      ghost var generics := GenericsText(g, t, edition, deps.PrefixModules, EditClasses(g));
      ghost var base := result.Text;
      assert base == start + kind + generics;
      ghost var collection := if t.IsCollection() && !notACollection then "[]" else "";
      if t.IsCollection() && !notACollection {
        result.Append("[]");
      }
      assert result.Text == base + collection;
      ghost var close := if t.IsDictionary() then " }" else "";
      if t.IsDictionary() {
        result.Append(" }");
      }
      assert result.Text == base + collection + close;
      EditSame@Based(g);
      assert TypeText(g, t, edition, allowObservable, notACollection, deps.PrefixModules, EditClasses(g)) ==
        open + kind + generics + collection + close;
      Assoc5(old(result.Text), open, kind, generics, collection, close);
    }

    /** The kind and the generic arguments of `WriteType`. The generic arguments may fill
        more caches; the classes the kind part named had already answered, so its text stays
        the same. */
    method WriteBase(ghost g: Graph, t: TypeNode, result: StringBuilder, edition: bool,
                     deps: Dependencies, allowObservable: bool)
      requires Closed(g) && CacheSound(g) && TypeInGraph(g, t)
      modifies result, deps`Views, deps`KoViews, g.classes`hasReadonly, g.props`hasReadonly
      ensures CacheSound(g) && CachesKept(g)
      ensures edition ==> Settled(g, ObjectClasses(g, t))
      ensures result.Text == old(result.Text) +
        KindText(g, t, edition, allowObservable, deps.PrefixModules, EditClasses(g)) +
        GenericsText(g, t, edition, deps.PrefixModules, EditClasses(g))
      ensures deps.Views == (old(deps.Views) || (deps.PrefixModules.Views && UsesViews(g, t, allowObservable)))
      ensures deps.KoViews ==
        (old(deps.KoViews) || (deps.PrefixModules.KoViews && UsesKoViews(g, t, allowObservable)))
      decreases t, 2
    {
      WriteKind(g, t, result, edition, deps, allowObservable);
      ghost var mid := EditClasses(g);
      if t.GenericParameters.List? {
        WriteGenerics(g, t, result, edition, deps);
        KindTextAgree(g, t, edition, allowObservable, deps.PrefixModules, mid, EditClasses(g));
      }
    }

    /** The generic arguments of `WriteType`: `<`, the arguments separated by ", ", `>`. */
    method WriteGenerics(ghost g: Graph, t: TypeNode, result: StringBuilder, edition: bool,
                         deps: Dependencies)
      requires Closed(g) && CacheSound(g) && TypeInGraph(g, t) && t.GenericParameters.List?
      modifies result, deps`Views, deps`KoViews, g.classes`hasReadonly, g.props`hasReadonly
      ensures CacheSound(g) && CachesKept(g)
      ensures edition ==> Settled(g, ListClasses(g, t, t.GenericParameters.items))
      ensures result.Text == old(result.Text) + GenericsText(g, t, edition, deps.PrefixModules, EditClasses(g))
      ensures deps.Views ==
        (old(deps.Views) || (deps.PrefixModules.Views && AnyUsesViews(g, t, t.GenericParameters.items, false)))
      ensures deps.KoViews ==
        (old(deps.KoViews) || (deps.PrefixModules.KoViews && AnyUsesKoViews(g, t, t.GenericParameters.items, false)))
      decreases t, 1, 1
    {
      ghost var o := result.Text;
      result.Append("<");
      WriteTypeList(g, t, t.GenericParameters.items, result, edition, deps, false, ", ");
      label Listed:
      ghost var list := Join(", ", TypeTexts(g, t, t.GenericParameters.items, edition, false, deps.PrefixModules,
                                             EditClasses(g)));
      AppendAssoc(o, "<", list);
      result.Append(">");
      AppendAssoc(o, "<" + list, ">");
      EditSame@Listed(g);
    }

    /** The `Edit` suffix of an Object type in edition mode: appended when the class's
        `HasReadOnly` answers true, which leaves the class's cache filled. */
    method WriteEditSuffix(ghost g: Graph, c: ClassNode, result: StringBuilder, edition: bool)
      requires Closed(g) && CacheSound(g) && c in g.classes
      modifies result, g.classes`hasReadonly, g.props`hasReadonly
      ensures CacheSound(g) && CachesKept(g)
      ensures edition ==> Settled(g, {c})
      ensures result.Text == old(result.Text) + (if edition && c in EditClasses(g) then "Edit" else "")
    {
      if edition {
        var hasReadOnly := c.HasReadOnly(g);
        if hasReadOnly {
          result.Append("Edit");
        }
      }
    }

    /** The Object case of `WriteType`: the class name, with the module prefix, the
        observable's `KoName` in knockout mode, and the `Edit` suffix for an edition of a
        class that has a read-only property. */
    method WriteObject(ghost g: Graph, t: TypeNode, result: StringBuilder, edition: bool,
                       deps: Dependencies, allowObservable: bool)
      requires Closed(g) && CacheSound(g) && TypeInGraph(g, t) && t.Type == Object
      modifies result, deps`Views, deps`KoViews, g.classes`hasReadonly, g.props`hasReadonly
      ensures CacheSound(g) && CachesKept(g)
      ensures edition ==> Settled(g, KindClasses(g, t))
      ensures result.Text == old(result.Text) +
        KindText(g, t, edition, allowObservable, deps.PrefixModules, EditClasses(g))
      ensures deps.Views ==
        (old(deps.Views) || (deps.PrefixModules.Views && KindUsesViews(g, t, allowObservable)))
      ensures deps.KoViews ==
        (old(deps.KoViews) || (deps.PrefixModules.KoViews && KindUsesKoViews(g, t, allowObservable)))
    {
      ghost var name := ClassRefText(t.Class, allowObservable, deps.PrefixModules);
      WriteClassRef(t.Class, result, deps, allowObservable);
      ghost var mid := result.Text;
      assert mid == old(result.Text) + name;
      WriteEditSuffix(g, t.Class, result, edition);
      ghost var suffix := if edition && t.Class in EditClasses(g) then "Edit" else "";
      assert result.Text == mid + suffix;
      AppendAssoc(old(result.Text), name, suffix);
    }

    /** The class name of an Object or Enum type: with `allowObservable`, an observable
        class is named by its `KoName` with the `koViews.` prefix, any other class by its
        `Name` with the `views.` prefix; the prefix, and the flag of the module it names,
        only when the dependencies' `PrefixModules` ask for it. */
    method WriteClassRef(c: ClassNode, result: StringBuilder, deps: Dependencies, allowObservable: bool)
      modifies result, deps`Views, deps`KoViews
      ensures result.Text == old(result.Text) + ClassRefText(c, allowObservable, deps.PrefixModules)
      ensures deps.Views ==
        (old(deps.Views) || (deps.PrefixModules.Views && !(allowObservable && c.IsObservable)))
      ensures deps.KoViews ==
        (old(deps.KoViews) || (deps.PrefixModules.KoViews && allowObservable && c.IsObservable))
    {
      var prefix := deps.PrefixModules;
      if allowObservable && c.IsObservable {
        if prefix.KoViews {
          deps.KoViews := true;
          result.Append("koViews.");
        }
        result.Append(c.KoName.GetOr(""));
        AppendAssoc(old(result.Text), if prefix.KoViews then "koViews." else "", c.KoName.GetOr(""));
      } else {
        if prefix.Views {
          deps.Views := true;
          result.Append("views.");
        }
        result.Append(c.Name);
        AppendAssoc(old(result.Text), if prefix.Views then "views." else "", c.Name);
      }
    }

    /** The `switch` of `WriteType` on the kind of the type. */
    method WriteKind(ghost g: Graph, t: TypeNode, result: StringBuilder, edition: bool,
                     deps: Dependencies, allowObservable: bool)
      requires Closed(g) && CacheSound(g) && TypeInGraph(g, t)
      modifies result, deps`Views, deps`KoViews, g.classes`hasReadonly, g.props`hasReadonly
      ensures CacheSound(g) && CachesKept(g)
      ensures edition ==> Settled(g, KindClasses(g, t))
      ensures result.Text == old(result.Text) +
        KindText(g, t, edition, allowObservable, deps.PrefixModules, EditClasses(g))
      ensures deps.Views ==
        (old(deps.Views) || (deps.PrefixModules.Views && KindUsesViews(g, t, allowObservable)))
      ensures deps.KoViews ==
        (old(deps.KoViews) || (deps.PrefixModules.KoViews && KindUsesKoViews(g, t, allowObservable)))
      decreases t, 1, 0
    {
      if t.Type == Object {
        WriteObject(g, t, result, edition, deps, allowObservable);
      } else if t.Type == Union {
        WriteUnion(g, t, result, edition, deps, allowObservable);
      } else {
        WriteSimpleKind(g, t, result, deps, allowObservable);
        SimpleKindText(g, t, edition, allowObservable, deps.PrefixModules, EditClasses(g));
      }
    }

    /** The `Union` case of the `switch` of `WriteType`: the alternatives joined by " | ". */
    method WriteUnion(ghost g: Graph, t: TypeNode, result: StringBuilder, edition: bool,
                      deps: Dependencies, allowObservable: bool)
      requires Closed(g) && CacheSound(g) && TypeInGraph(g, t) && t.Type == Union
      modifies result, deps`Views, deps`KoViews, g.classes`hasReadonly, g.props`hasReadonly
      ensures CacheSound(g) && CachesKept(g)
      ensures edition ==> Settled(g, KindClasses(g, t))
      ensures result.Text == old(result.Text) +
        KindText(g, t, edition, allowObservable, deps.PrefixModules, EditClasses(g))
      ensures deps.Views ==
        (old(deps.Views) || (deps.PrefixModules.Views && KindUsesViews(g, t, allowObservable)))
      ensures deps.KoViews ==
        (old(deps.KoViews) || (deps.PrefixModules.KoViews && KindUsesKoViews(g, t, allowObservable)))
      decreases t, 0, 3
    {
      WriteTypeList(g, t, t.Union.items, result, edition, deps, allowObservable, " | ");
    }

    /** The cases of the `switch` of `WriteType` that name no class to ask `HasReadOnly` of
        and no nested type: the primitive types, an Enum by its class name, and a generic
        parameter by its name. */
    method WriteSimpleKind(ghost g: Graph, t: TypeNode, result: StringBuilder, deps: Dependencies,
                           allowObservable: bool)
      requires TypeInGraph(g, t) && t.Type != Object && t.Type != Union
      modifies result, deps`Views, deps`KoViews
      ensures result.Text == old(result.Text) + KindText(g, t, false, allowObservable, deps.PrefixModules, {})
      ensures deps.Views == (old(deps.Views) || (deps.PrefixModules.Views && t.Type == Enum))
      ensures deps.KoViews == old(deps.KoViews)
    {
      match t.Type {
        case Boolean => result.Append("boolean");
        case DateTime => result.Append(if allowObservable then "Date" else "string");
        case Decimal => result.Append("number");
        case Double => result.Append("number");
        case Float => result.Append("number");
        case Int => result.Append("number");
        case Long => result.Append("number");
        case Guid => result.Append("string");
        case String => result.Append("string");
        case TimeSpan => result.Append("string");
        case Enum => WriteClassRef(t.Class, result, deps, false);
        case Any => result.Append("any");
        case GenericParameter => result.Append(t.GenericName.GetOr(""));
      }
    }

    /** The `foreach` loops of `WriteType` over union alternatives (separated by " | ") and
        generic arguments (separated by ", "): the texts of the types, in order, joined by
        `sep`. */
    method WriteTypeList(ghost g: Graph, ghost parent: TypeNode, ts: seq<TypeNode>, result: StringBuilder,
                         edition: bool, deps: Dependencies, allowObservable: bool, sep: string)
      requires Closed(g) && CacheSound(g)
      requires forall i :: 0 <= i < |ts| ==> ts[i] < parent && TypeInGraph(g, ts[i])
      modifies result, deps`Views, deps`KoViews, g.classes`hasReadonly, g.props`hasReadonly
      ensures CacheSound(g) && CachesKept(g)
      ensures edition ==> Settled(g, ListClasses(g, parent, ts))
      ensures result.Text == old(result.Text) +
        Join(sep, TypeTexts(g, parent, ts, edition, allowObservable, deps.PrefixModules, EditClasses(g)))
      ensures deps.Views ==
        (old(deps.Views) || (deps.PrefixModules.Views && AnyUsesViews(g, parent, ts, allowObservable)))
      ensures deps.KoViews ==
        (old(deps.KoViews) || (deps.PrefixModules.KoViews && AnyUsesKoViews(g, parent, ts, allowObservable)))
      decreases parent, 0, 2
    {
      TypesWrittenNone(g, parent, ts, edition, allowObservable, sep, result, deps);
      var i := 0;
      while i != |ts|
        invariant 0 <= i <= |ts|
        invariant CacheSound(g) && CachesKept(g)
        invariant TypesWritten(g, parent, ts, i, edition, allowObservable, sep, result, deps,
                               old(result.Text), old(deps.Views), old(deps.KoViews))
      {
        WriteListItem(g, parent, ts, i, result, edition, deps, allowObservable, sep,
                      old(result.Text), old(deps.Views), old(deps.KoViews));
        i := i + 1;
      }
      TypesWrittenAll(g, parent, ts, edition, allowObservable, sep, result, deps,
                      old(result.Text), old(deps.Views), old(deps.KoViews));
    }

    /** One turn of the loop of `WriteTypeList`: the separator (but before the first type)
        and the text of the `i`-th type; the texts of the types before it are unchanged. */
    method WriteListItem(ghost g: Graph, ghost parent: TypeNode, ts: seq<TypeNode>, i: nat,
                         result: StringBuilder, edition: bool, deps: Dependencies,
                         allowObservable: bool, sep: string, ghost o: string,
                         ghost views: bool, ghost koViews: bool)
      requires Closed(g) && CacheSound(g) && i < |ts|
      requires forall j :: 0 <= j < |ts| ==> ts[j] < parent && TypeInGraph(g, ts[j])
      requires edition ==> Settled(g, ListClasses(g, parent, ts[..i]))
      requires result.Text == o +
        Join(sep, TypeTexts(g, parent, ts[..i], edition, allowObservable, deps.PrefixModules, EditClasses(g)))
      requires deps.Views ==
        (views || (deps.PrefixModules.Views && AnyUsesViews(g, parent, ts[..i], allowObservable)))
      requires deps.KoViews ==
        (koViews || (deps.PrefixModules.KoViews && AnyUsesKoViews(g, parent, ts[..i], allowObservable)))
      modifies result, deps`Views, deps`KoViews, g.classes`hasReadonly, g.props`hasReadonly
      ensures CacheSound(g) && CachesKept(g)
      ensures edition ==> Settled(g, ListClasses(g, parent, ts[..i + 1]))
      ensures result.Text == o +
        Join(sep, TypeTexts(g, parent, ts[..i + 1], edition, allowObservable, deps.PrefixModules,
                            EditClasses(g)))
      ensures deps.Views ==
        (views || (deps.PrefixModules.Views && AnyUsesViews(g, parent, ts[..i + 1], allowObservable)))
      ensures deps.KoViews ==
        (koViews || (deps.PrefixModules.KoViews && AnyUsesKoViews(g, parent, ts[..i + 1], allowObservable)))
      decreases parent, 0, 1
    {
      if i > 0 {
        result.Append(sep);
      }
      WriteListEntry(g, parent, ts, i, result, edition, deps, allowObservable, sep, o, views, koViews);
    }

    /** The `i`-th type of `WriteListItem`, after its separator. */
    method WriteListEntry(ghost g: Graph, ghost parent: TypeNode, ts: seq<TypeNode>, i: nat,
                         result: StringBuilder, edition: bool, deps: Dependencies,
                         allowObservable: bool, sep: string, ghost o: string,
                         ghost views: bool, ghost koViews: bool)
      requires Closed(g) && CacheSound(g) && i < |ts|
      requires forall j :: 0 <= j < |ts| ==> ts[j] < parent && TypeInGraph(g, ts[j])
      requires edition ==> Settled(g, ListClasses(g, parent, ts[..i]))
      requires result.Text == o +
        Join(sep, TypeTexts(g, parent, ts[..i], edition, allowObservable, deps.PrefixModules, EditClasses(g))) +
        (if i > 0 then sep else "")
      requires deps.Views ==
        (views || (deps.PrefixModules.Views && AnyUsesViews(g, parent, ts[..i], allowObservable)))
      requires deps.KoViews ==
        (koViews || (deps.PrefixModules.KoViews && AnyUsesKoViews(g, parent, ts[..i], allowObservable)))
      modifies result, deps`Views, deps`KoViews, g.classes`hasReadonly, g.props`hasReadonly
      ensures CacheSound(g) && CachesKept(g)
      ensures edition ==> Settled(g, ListClasses(g, parent, ts[..i + 1]))
      ensures result.Text == o +
        Join(sep, TypeTexts(g, parent, ts[..i + 1], edition, allowObservable, deps.PrefixModules,
                            EditClasses(g)))
      ensures deps.Views ==
        (views || (deps.PrefixModules.Views && AnyUsesViews(g, parent, ts[..i + 1], allowObservable)))
      ensures deps.KoViews ==
        (koViews || (deps.PrefixModules.KoViews && AnyUsesKoViews(g, parent, ts[..i + 1], allowObservable)))
      decreases parent, 0, 0
    {
      var prefix := deps.PrefixModules;
      ghost var before := EditClasses(g);
      ghost var texts := TypeTexts(g, parent, ts[..i], edition, allowObservable, prefix, before);
      ghost var start := result.Text;
      assert start == o + Join(sep, texts) + (if texts != [] then sep else "");
      WriteType(g, ts[i], result, edition, deps, allowObservable, false);
      ghost var item := TypeText(g, ts[i], edition, allowObservable, false, prefix, EditClasses(g));
      assert result.Text == start + item;
      TypeTextsAgree(g, parent, ts[..i], edition, allowObservable, prefix, before, EditClasses(g));
      ListSnoc(g, parent, ts, i, edition, allowObservable, prefix, EditClasses(g));
      JoinAppend(o, sep, texts, item);
    }

    /** `AppendFormatDocumentation`: appends the one-line doc comment of `DocText`. */
    method AppendFormatDocumentation(builder: StringBuilder, documentation: Option<string>, prefix: Option<string>)
      modifies builder
      ensures builder.Text == old(builder.Text) + DocText(documentation, prefix)
    {
      if !IsNullOrEmpty(documentation) {
        builder.Append("/** ");
        if prefix.Some? {
          builder.Append(prefix.value);
          builder.Append(" ");
        }
        builder.Append(documentation.value);
        builder.AppendLine(" */");
      }
    }

    /** `WriteClassName`: appends the class's name (its `KoName` in knockout mode) and its
        generic parameters. */
    method WriteClassName(c: ClassNode, knockout: bool, result: StringBuilder)
      modifies result
      ensures result.Text == old(result.Text) + ClassNameText(c, knockout)
    {
      var name := if knockout then c.KoName.GetOr("") else c.Name;
      result.Append(name);
      WriteGenericParameters(c, result);
      AppendAssoc(old(result.Text), name, GenericParametersText(c.GenericParameters));
    }

    /** The part of `WriteProperty` before the type. */
    method WritePropertyHead(p: PropertyNode, result: StringBuilder)
      modifies result
      ensures result.Text == old(result.Text) + PropertyHeadText(p)
    {
      AppendFormatDocumentation(result, p.Documentation, None);
      result.Append(Tab + p.Name);
      if !p.IsRequired {
        result.Append("?");
      }
      result.Append(": ");
    }

    /** `WriteProperty`: appends the property's line, its type written without observables
        (so it never makes use of the `koViews` module). */
    method WriteProperty(ghost g: Graph, p: PropertyNode, result: StringBuilder, edition: bool,
                         deps: Dependencies)
      requires Closed(g) && CacheSound(g) && TypeInGraph(g, p.Type)
      modifies result, deps`Views, deps`KoViews, g.classes`hasReadonly, g.props`hasReadonly
      ensures CacheSound(g) && CachesKept(g)
      ensures edition ==> Settled(g, ObjectClasses(g, p.Type))
      ensures result.Text == old(result.Text) + PropertyText(g, p, edition, deps.PrefixModules, EditClasses(g))
      ensures deps.Views == (old(deps.Views) || (deps.PrefixModules.Views && UsesViews(g, p.Type, false)))
      ensures deps.KoViews ==
        (old(deps.KoViews) || (deps.PrefixModules.KoViews && UsesKoViews(g, p.Type, false)))
    {
      WritePropertyHead(p, result);
      ghost var head := PropertyHeadText(p);
      ghost var mid := result.Text;
      assert mid == old(result.Text) + head;
      WritePropertyType(g, p, result, edition, deps);
      ghost var kind := TypeText(g, p.Type, edition, false, false, deps.PrefixModules, EditClasses(g));
      assert result.Text == mid + kind + ";" + NewLine;
      Assoc4(old(result.Text), head, kind, ";", NewLine);
    }

    /** The type of `WriteProperty` and the end of its line. */
    method WritePropertyType(ghost g: Graph, p: PropertyNode, result: StringBuilder, edition: bool,
                             deps: Dependencies)
      requires Closed(g) && CacheSound(g) && TypeInGraph(g, p.Type)
      modifies result, deps`Views, deps`KoViews, g.classes`hasReadonly, g.props`hasReadonly
      ensures CacheSound(g) && CachesKept(g)
      ensures edition ==> Settled(g, ObjectClasses(g, p.Type))
      ensures result.Text == old(result.Text) +
        TypeText(g, p.Type, edition, false, false, deps.PrefixModules, EditClasses(g)) + ";" + NewLine
      ensures deps.Views == (old(deps.Views) || (deps.PrefixModules.Views && UsesViews(g, p.Type, false)))
      ensures deps.KoViews ==
        (old(deps.KoViews) || (deps.PrefixModules.KoViews && UsesKoViews(g, p.Type, false)))
    {
      WriteType(g, p.Type, result, edition, deps, false, false);
      result.AppendLine(";");
    }

    /** `WriteTypeDefinition`: appends the declaration of a class, as an interface of its
        written properties or as a const enum of its values. */
    method WriteTypeDefinition(ghost g: Graph, c: ClassNode, result: StringBuilder, edition: bool,
                               deps: Dependencies)
      requires Closed(g) && CacheSound(g) && DefinitionInGraph(g, c)
      modifies result, deps`Views, deps`KoViews, g.classes`hasReadonly, g.props`hasReadonly
      ensures CacheSound(g) && CachesKept(g)
      ensures edition ==> Settled(g, DefinitionClasses(g, c, edition))
      ensures result.Text == old(result.Text) +
        TypeDefinitionText(g, c, edition, deps.PrefixModules, EditClasses(g))
      ensures deps.Views ==
        (old(deps.Views) || (deps.PrefixModules.Views && DefinitionUsesViews(g, c, edition)))
      ensures deps.KoViews ==
        (old(deps.KoViews) || (deps.PrefixModules.KoViews && DefinitionUsesKoViews(g, c, edition)))
    {
      WriteDefinitionHead(c, result);
      ghost var head := NewLine + DocText(c.Documentation, None);
      ghost var mid := result.Text;
      assert mid == old(result.Text) + head;
      var name := c.Name;
      if edition {
        name := name + "Edit";
      }
      WriteDeclaration(g, c, name, result, edition, deps);
      ghost var declaration := DeclarationText(g, c, edition, deps.PrefixModules, EditClasses(g));
      assert result.Text == mid + declaration + "}" + NewLine;
      Assoc4(old(result.Text), head, declaration, "}", NewLine);
    }

    /** The empty line and the doc comment that open `WriteTypeDefinition`. */
    method WriteDefinitionHead(c: ClassNode, result: StringBuilder)
      modifies result
      ensures result.Text == old(result.Text) + (NewLine + DocText(c.Documentation, None))
    {
      result.AppendEmptyLine();
      AppendFormatDocumentation(result, c.Documentation, None);
    }

    /** The declaration of `WriteTypeDefinition` and its closing brace. */
    method WriteDeclaration(ghost g: Graph, c: ClassNode, name: string, result: StringBuilder, edition: bool,
                            deps: Dependencies)
      requires Closed(g) && CacheSound(g) && DefinitionInGraph(g, c)
      requires name == DefinitionName(c, edition)
      modifies result, deps`Views, deps`KoViews, g.classes`hasReadonly, g.props`hasReadonly
      ensures CacheSound(g) && CachesKept(g)
      ensures edition ==> Settled(g, DefinitionClasses(g, c, edition))
      ensures result.Text == old(result.Text) +
        DeclarationText(g, c, edition, deps.PrefixModules, EditClasses(g)) + "}" + NewLine
      ensures deps.Views ==
        (old(deps.Views) || (deps.PrefixModules.Views && DefinitionUsesViews(g, c, edition)))
      ensures deps.KoViews ==
        (old(deps.KoViews) || (deps.PrefixModules.KoViews && DefinitionUsesKoViews(g, c, edition)))
    {
      if c.Properties.Some? {
        WriteInterface(g, c, name, result, edition, deps);
      } else {
        WriteEnum(c, name, result, edition);
      }
      result.AppendLine("}");
    }

    /** The interface branch of `WriteTypeDefinition`: the header with the generic
        parameters, then the written properties separated by empty lines. */
    method WriteInterface(ghost g: Graph, c: ClassNode, name: string, result: StringBuilder, edition: bool,
                          deps: Dependencies)
      requires Closed(g) && CacheSound(g) && DefinitionInGraph(g, c) && c.Properties.Some?
      requires name == DefinitionName(c, edition)
      modifies result, deps`Views, deps`KoViews, g.classes`hasReadonly, g.props`hasReadonly
      ensures CacheSound(g) && CachesKept(g)
      ensures edition ==> Settled(g, DefinitionClasses(g, c, edition))
      ensures result.Text == old(result.Text) + DeclarationText(g, c, edition, deps.PrefixModules, EditClasses(g))
      ensures deps.Views ==
        (old(deps.Views) || (deps.PrefixModules.Views && DefinitionUsesViews(g, c, edition)))
      ensures deps.KoViews ==
        (old(deps.KoViews) || (deps.PrefixModules.KoViews && DefinitionUsesKoViews(g, c, edition)))
    {
      WriteInterfaceHeader(c, name, result, edition);
      ghost var header := InterfaceHeader(c, edition);
      ghost var mid := result.Text;
      assert mid == old(result.Text) + header;
      WriteProperties(g, c.Properties.value, result, edition, deps);
      WrittenInGraph(g, c.Properties.value, edition);
      ghost var body := Join(NewLine, PropertyTexts(g, WrittenProperties(c.Properties.value, edition), edition,
                                                     deps.PrefixModules, EditClasses(g)));
      assert result.Text == mid + body;
      AppendAssoc(old(result.Text), header, body);
    }

    /** The first line of an interface. */
    method WriteInterfaceHeader(c: ClassNode, name: string, result: StringBuilder, ghost edition: bool)
      requires name == DefinitionName(c, edition)
      modifies result
      ensures result.Text == old(result.Text) + InterfaceHeader(c, edition)
    {
      result.Append("export interface " + name);
      ghost var start := result.Text;
      WriteGenericParameters(c, result);
      ghost var generics := GenericParametersText(c.GenericParameters);
      assert result.Text == start + generics;
      result.AppendLine(" {");
      assert result.Text == old(result.Text) + (InterfaceKeyword + name) + generics + " {" + NewLine;
      Regroup(old(result.Text), InterfaceKeyword, name, generics, " {", NewLine);
    }

    /** The generic parameters of a class declaration, in angle brackets. */
    method WriteGenericParameters(c: ClassNode, result: StringBuilder)
      modifies result
      ensures result.Text == old(result.Text) + GenericParametersText(c.GenericParameters)
    {
      if c.GenericParameters.Some? {
        result.Append("<");
        result.Append(Join(", ", c.GenericParameters.value));
        result.Append(">");
      }
    }

    /** The `foreach` over the properties of `WriteTypeDefinition`, with its `first` flag:
        the lines of the written properties, separated by empty lines. */
    method WriteProperties(ghost g: Graph, props: seq<PropertyNode>, result: StringBuilder, edition: bool,
                           deps: Dependencies)
      requires Closed(g) && CacheSound(g) && PropertiesInGraph(g, props)
      modifies result, deps`Views, deps`KoViews, g.classes`hasReadonly, g.props`hasReadonly
      ensures CacheSound(g) && CachesKept(g)
      ensures PropertiesInGraph(g, WrittenProperties(props, edition))
      ensures edition ==> Settled(g, PropertiesClasses(g, WrittenProperties(props, edition)))
      ensures result.Text == old(result.Text) +
        Join(NewLine, PropertyTexts(g, WrittenProperties(props, edition), edition, deps.PrefixModules, EditClasses(g)))
      ensures deps.Views == (old(deps.Views) ||
        (deps.PrefixModules.Views && PropertiesUseViews(g, WrittenProperties(props, edition))))
      ensures deps.KoViews == (old(deps.KoViews) ||
        (deps.PrefixModules.KoViews && PropertiesUseKoViews(g, WrittenProperties(props, edition))))
    {
      PropertiesWrittenNone(g, props, edition, result, deps);
      ghost var written, first :=
        WritePropertiesLoop(g, props, result, edition, deps, old(result.Text), old(deps.Views), old(deps.KoViews));
      PropertiesWrittenAll(g, props, written, first, edition, result, deps,
                           old(result.Text), old(deps.Views), old(deps.KoViews));
    }

    /** The loop of `WriteProperties`, from nothing written to every property visited. */
    method WritePropertiesLoop(ghost g: Graph, props: seq<PropertyNode>, result: StringBuilder, edition: bool,
                               deps: Dependencies, ghost o: string, ghost views: bool, ghost koViews: bool)
      returns (ghost written: seq<PropertyNode>, first: bool)
      requires Closed(g) && CacheSound(g) && PropertiesInGraph(g, props)
      requires PropertiesWritten(g, props, 0, [], true, edition, result, deps, o, views, koViews)
      modifies result, deps`Views, deps`KoViews, g.classes`hasReadonly, g.props`hasReadonly
      ensures CacheSound(g) && CachesKept(g)
      ensures PropertiesWritten(g, props, |props|, written, first, edition, result, deps, o, views, koViews)
    {
      first := true;
      written := [];
      var i := 0;
      while i != |props|
        invariant CacheSound(g) && CachesKept(g)
        invariant PropertiesWritten(g, props, i, written, first, edition, result, deps, o, views, koViews)
      {
        first, written := WritePropertyItem(g, props, i, written, result, edition, deps, first, o, views, koViews);
        i := i + 1;
      }
    }

    /** One turn of `WriteProperties`: a property skipped in edition mode leaves everything
        as it is; a written one is added to the lines. Returns the new `first` flag and the
        properties written so far. */
    method WritePropertyItem(ghost g: Graph, props: seq<PropertyNode>, i: nat, ghost written: seq<PropertyNode>,
                             result: StringBuilder, edition: bool, deps: Dependencies, first: bool,
                             ghost o: string, ghost views: bool, ghost koViews: bool)
      returns (next: bool, ghost written': seq<PropertyNode>)
      requires Closed(g) && CacheSound(g) && PropertiesInGraph(g, props) && i < |props|
      requires PropertiesWritten(g, props, i, written, first, edition, result, deps, o, views, koViews)
      modifies result, deps`Views, deps`KoViews, g.classes`hasReadonly, g.props`hasReadonly
      ensures CacheSound(g) && CachesKept(g)
      ensures PropertiesWritten(g, props, i + 1, written', next, edition, result, deps, o, views, koViews)
    {
      WrittenSnoc(props, i, edition);
      if !props[i].IsReadOnly || !edition {
        WritePropertyEntry(g, written, props[i], result, edition, deps, first, o, views, koViews);
        next, written' := false, written + [props[i]];
      } else {
        next, written' := first, written;
      }
    }

    /** One written property of `WriteProperties`: an empty line unless it is the first,
        then its line; the lines before it are unchanged. */
    method WritePropertyEntry(ghost g: Graph, ghost written: seq<PropertyNode>, p: PropertyNode,
                              result: StringBuilder, edition: bool, deps: Dependencies, first: bool,
                              ghost o: string, ghost views: bool, ghost koViews: bool)
      requires Closed(g) && CacheSound(g) && PropertiesInGraph(g, written) && TypeInGraph(g, p.Type)
      requires first <==> written == []
      requires edition ==> Settled(g, PropertiesClasses(g, written))
      requires result.Text == o + Join(NewLine, PropertyTexts(g, written, edition, deps.PrefixModules, EditClasses(g)))
      requires deps.Views == (views || (deps.PrefixModules.Views && PropertiesUseViews(g, written)))
      requires deps.KoViews == (koViews || (deps.PrefixModules.KoViews && PropertiesUseKoViews(g, written)))
      modifies result, deps`Views, deps`KoViews, g.classes`hasReadonly, g.props`hasReadonly
      ensures CacheSound(g) && CachesKept(g) && PropertiesInGraph(g, written + [p])
      ensures edition ==> Settled(g, PropertiesClasses(g, written + [p]))
      ensures result.Text == o +
        Join(NewLine, PropertyTexts(g, written + [p], edition, deps.PrefixModules, EditClasses(g)))
      ensures deps.Views == (views || (deps.PrefixModules.Views && PropertiesUseViews(g, written + [p])))
      ensures deps.KoViews == (koViews || (deps.PrefixModules.KoViews && PropertiesUseKoViews(g, written + [p])))
    {
      if !first {
        result.AppendEmptyLine();
      }
      WritePropertyLine(g, written, p, result, edition, deps, o, views, koViews);
    }

    /** The line of a written property, after the empty line that separates it from the
        lines before it. */
    method WritePropertyLine(ghost g: Graph, ghost written: seq<PropertyNode>, p: PropertyNode,
                             result: StringBuilder, edition: bool, deps: Dependencies,
                             ghost o: string, ghost views: bool, ghost koViews: bool)
      requires Closed(g) && CacheSound(g) && PropertiesInGraph(g, written) && TypeInGraph(g, p.Type)
      requires edition ==> Settled(g, PropertiesClasses(g, written))
      requires var texts := PropertyTexts(g, written, edition, deps.PrefixModules, EditClasses(g));
        result.Text == o + Join(NewLine, texts) + (if texts != [] then NewLine else "")
      requires deps.Views == (views || (deps.PrefixModules.Views && PropertiesUseViews(g, written)))
      requires deps.KoViews == (koViews || (deps.PrefixModules.KoViews && PropertiesUseKoViews(g, written)))
      modifies result, deps`Views, deps`KoViews, g.classes`hasReadonly, g.props`hasReadonly
      ensures CacheSound(g) && CachesKept(g) && PropertiesInGraph(g, written + [p])
      ensures edition ==> Settled(g, PropertiesClasses(g, written + [p]))
      ensures result.Text == o +
        Join(NewLine, PropertyTexts(g, written + [p], edition, deps.PrefixModules, EditClasses(g)))
      ensures deps.Views == (views || (deps.PrefixModules.Views && PropertiesUseViews(g, written + [p])))
      ensures deps.KoViews == (koViews || (deps.PrefixModules.KoViews && PropertiesUseKoViews(g, written + [p])))
    {
      var prefix := deps.PrefixModules;
      ghost var before := EditClasses(g);
      ghost var texts := PropertyTexts(g, written, edition, prefix, before);
      label Before:
      WriteProperty(g, p, result, edition, deps);
      ghost var item := PropertyText(g, p, edition, prefix, EditClasses(g));
      if edition {
        EditKept@Before(g, PropertiesClasses(g, written));
      }
      PropertyTextsAgree(g, written, edition, prefix, before, EditClasses(g));
      PropertiesSnoc(g, written, p, edition, prefix, EditClasses(g));
      JoinAppend(o, NewLine, texts, item);
    }

    /** The const enum branch of `WriteTypeDefinition`: the header, the values separated by
        `EnumSeparator`, and the end of the last value's line. */
    method WriteEnum(c: ClassNode, name: string, result: StringBuilder, ghost edition: bool)
      requires c.Values.Some? && name == DefinitionName(c, edition)
      modifies result
      ensures result.Text == old(result.Text) +
        (EnumHeader(c, edition) + Join(EnumSeparator, EnumValueTexts(c.Values.value)) + NewLine)
    {
      result.Append("export const enum ");
      result.AppendLine(name + " {");
      ghost var header := EnumHeader(c, edition);
      ghost var start := result.Text;
      assert start == old(result.Text) + header;
      WriteEnumValues(c.Values.value, result);
      ghost var body := Join(EnumSeparator, EnumValueTexts(c.Values.value));
      assert result.Text == start + body + NewLine;
      Assoc3(old(result.Text), header, body, NewLine);
    }

    /** The `foreach` over the values of a const enum, with its `first` flag, and the end of
        the last line. */
    method WriteEnumValues(values: seq<EnumValueNode>, result: StringBuilder)
      modifies result
      ensures result.Text == old(result.Text) + Join(EnumSeparator, EnumValueTexts(values)) + NewLine
    {
      var first := true;
      var i := 0;
      while i < |values|
        invariant 0 <= i <= |values|
        invariant first <==> i == 0
        invariant result.Text == old(result.Text) + Join(EnumSeparator, EnumValueTexts(values[..i]))
      {
        WriteEnumItem(values, i, result, first, old(result.Text));
        first := false;
        i := i + 1;
      }
      assert values[..i] == values;
      result.AppendEmptyLine();
    }

    /** One turn of `WriteEnumValues`: the separator but before the first value, then the
        value. */
    method WriteEnumItem(values: seq<EnumValueNode>, i: nat, result: StringBuilder, first: bool, ghost o: string)
      requires i < |values| && (first <==> i == 0)
      requires result.Text == o + Join(EnumSeparator, EnumValueTexts(values[..i]))
      modifies result
      ensures result.Text == o + Join(EnumSeparator, EnumValueTexts(values[..i + 1]))
    {
      ghost var texts := EnumValueTexts(values[..i]);
      if !first {
        result.AppendLine(",");
        result.AppendEmptyLine();
      }
      ghost var start := result.Text;
      assert start == o + Join(EnumSeparator, texts) + (if texts != [] then EnumSeparator else "");
      WriteEnumValue(values[i], result);
      JoinAppend(o, EnumSeparator, texts, EnumValueText(values[i]));
      assert values[..i + 1][..i] == values[..i];
    }

    /** One value of a const enum: its doc comment, then `Name = Value`. */
    method WriteEnumValue(v: EnumValueNode, result: StringBuilder)
      modifies result
      ensures result.Text == old(result.Text) + EnumValueText(v)
    {
      if v.Documentation.Some? && |v.Documentation.value| > 0 {
        result.AppendLine(Tab + "/** " + v.Documentation.value + " */");
      }
      result.Append(Tab + v.Name + " = " + IntToString(v.Value));
    }

    /** `OutputModules.Add(key, text)`. The dictionary throws on a key it already holds,
        which ends the writing: `ok` says whether the module was added. */
    method AddModule(key: string, text: string) returns (ok: bool)
      modifies this`OutputModules
      ensures ok == (key !in old(OutputModules))
      ensures OutputModules == if ok then old(OutputModules)[key := text] else old(OutputModules)
    {
      ok := key !in OutputModules;
      if ok {
        OutputModules := OutputModules[key := text];
      }
    }

    /** `if (cond) result.Append(…)` for one validator: the call is added to the chain when
        the condition holds. */
    method AddValidatorWhen(cond: bool, v: Validator, result: StringBuilder, ghost chain: seq<Validator>,
                            ghost o: string)
      requires result.Text == o + ChainText(chain)
      modifies result
      ensures result.Text == o + ChainText(chain + (if cond then [v] else []))
    {
      if cond {
        result.Append(ValidatorText(v));
        ChainTextSnoc(chain, v);
        AppendAssoc(o, ChainText(chain), ValidatorText(v));
      } else {
        assert chain + [] == chain;
      }
    }

    /** The validators `WriteKoProperty` chains to an observable that needs validation, one
        per constraint of the property, with `hasMaxLength` for the maximum length and the
        range validator chosen by which bounds are set. */
    method WriteKoValidators(p: PropertyNode, result: StringBuilder)
      modifies result
      ensures result.Text == old(result.Text) + ChainText(ValidatorsIntended(p))
    {
      if p.NeedValidation() {
        ghost var o := result.Text;
        ghost var common := CommonValidators(p);
        ghost var maxLength := if p.MaximumLength.Some? then [HasMaxLength(p.MaximumLength.value)] else [];
        WriteCommonValidators(p, result);
        AddValidatorWhen(p.MaximumLength.Some?, HasMaxLength(p.MaximumLength.GetOr(0)), result, common, o);
        AddValidatorWhen(p.Format == Email, IsEmail, result, common + maxLength, o);
        WriteKoRange(p, result, common + maxLength + (if p.Format == Email then [IsEmail] else []), o);
      }
    }

    /** The validators of `WriteKoValidators` that do not involve the maximum length or the
        range: required, same value as another property, minimum length. */
    method WriteCommonValidators(p: PropertyNode, result: StringBuilder)
      modifies result
      ensures result.Text == old(result.Text) + ChainText(CommonValidators(p))
    {
      ghost var o := result.Text;
      ghost var required := if p.IsRequired then [IsRequired] else [];
      ghost var same := if p.CompareTo.Some? then [AreSame(p.CompareTo.value)] else [];
      assert [] + required == required;
      AddValidatorWhen(p.IsRequired, IsRequired, result, [], o);
      AddValidatorWhen(p.CompareTo.Some?, AreSame(p.CompareTo.GetOr("")), result, required, o);
      AddValidatorWhen(p.MinimumLength.Some?, HasMinLength(p.MinimumLength.GetOr(0)), result, required + same, o);
    }

    /** The range validator of `WriteKoValidators`: `isInRange` when both bounds are set,
        otherwise `isAtMost` or `isAtLeast` for the bound that is set. */
    method WriteKoRange(p: PropertyNode, result: StringBuilder, ghost chain: seq<Validator>, ghost o: string)
      requires result.Text == o + ChainText(chain)
      modifies result
      ensures result.Text == o + ChainText(chain + RangeIntended(p.Minimum, p.Maximum))
    {
      if p.Minimum.Some? && p.Maximum.Some? {
        AddValidatorWhen(true, IsInRange(p.Minimum.value, p.Maximum.value), result, chain, o);
      } else if p.Maximum.Some? {
        AddValidatorWhen(true, IsAtMost(p.Maximum.value), result, chain, o);
      } else if p.Minimum.Some? {
        AddValidatorWhen(true, IsAtLeast(p.Minimum.value), result, chain, o);
      } else {
        assert chain + [] == chain;
      }
    }

    /** The `@param` lines of the doc block, in the order of the parameters. */
    method WriteParameterDocs(ps: seq<ParameterNode>, result: StringBuilder)
      modifies result
      ensures result.Text == old(result.Text) + ParameterDocsText(ps)
    {
      var i := 0;
      while i < |ps|
        invariant 0 <= i <= |ps|
        invariant result.Text == old(result.Text) + ParameterDocsText(ps[..i])
      {
        AppendFormatDocumentation(result, ps[i].Documentation, Some("@param " + ps[i].Name));
        assert ps[..i + 1][..i] == ps[..i];
        AppendAssoc(old(result.Text), ParameterDocsText(ps[..i]), DocText(ps[i].Documentation, Some("@param " + ps[i].Name)));
        i := i + 1;
      }
      assert ps[..i] == ps;
    }

    /** The lines inside the doc block: the action's documentation, one `@param` line per
        documented parameter and the `@return` line. */
    method WriteDocLines(a: ActionNode, result: StringBuilder)
      modifies result
      ensures result.Text == old(result.Text) + DocLinesText(a)
    {
      ghost var o := result.Text;
      AppendFormatDocumentation(result, a.Documentation, None);
      ghost var acc := DocText(a.Documentation, None);
      WriteParameterDocs(a.Parameters, result);
      AppendAssoc(o, acc, ParameterDocsText(a.Parameters));
      acc := acc + ParameterDocsText(a.Parameters);
      if a.Return.Some? {
        AppendFormatDocumentation(result, a.Return.value.Documentation, Some("@return"));
        AppendAssoc(o, acc, ReturnDocText(a.Return));
      }
    }

    /** The doc block of `WriteAction`, when the action, a parameter or the return value has
        documentation. */
    method WriteDocBlock(a: ActionNode, result: StringBuilder)
      modifies result
      ensures result.Text == old(result.Text) + DocBlockText(a)
    {
      if HasDocumentation(a) {
        ghost var o := result.Text;
        result.AppendLine(Tab + "/**");
        AppendAssoc(o, Tab + "/**", NewLine);
        ghost var acc := Tab + "/**" + NewLine;
        WriteDocLines(a, result);
        AppendAssoc(o, acc, DocLinesText(a));
        acc := acc + DocLinesText(a);
        result.AppendLine(Tab + " */");
        AppendLineAssoc(o, acc, Tab + " */");
      }
    }

    /** One parameter of the signature: its name, `?` unless it is required, and its type in
        edition mode, as an observable in knockout mode. */
    method WriteParameter(ghost g: Graph, p: ParameterNode, result: StringBuilder, knockout: bool,
                          deps: Dependencies)
      requires Closed(g) && CacheSound(g) && TypeInGraph(g, p.Type)
      modifies result, deps`Views, deps`KoViews, g.classes`hasReadonly, g.props`hasReadonly
      ensures CacheSound(g) && CachesKept(g)
      ensures Settled(g, ObjectClasses(g, p.Type))
      ensures result.Text == old(result.Text) + ParameterText(g, p, knockout, deps.PrefixModules, EditClasses(g))
      ensures deps.Views == (old(deps.Views) || (deps.PrefixModules.Views && UsesViews(g, p.Type, knockout)))
      ensures deps.KoViews == (old(deps.KoViews) || (deps.PrefixModules.KoViews && UsesKoViews(g, p.Type, knockout)))
    {
      ghost var o := result.Text;
      result.Append(p.Name);
      ghost var optional := if p.IsRequired then "" else "?";
      if !p.IsRequired {
        result.Append("?");
      }
      assert result.Text == o + p.Name + optional;
      AppendAssoc(o, p.Name, optional);
      result.Append(": ");
      AppendAssoc(o, p.Name + optional, ": ");
      ghost var acc := p.Name + optional + ": ";
      WriteType(g, p.Type, result, true, deps, knockout, false);
      AppendAssoc(o, acc, TypeText(g, p.Type, true, knockout, false, deps.PrefixModules, EditClasses(g)));
    }

    /** The `foreach` over the parameters of the signature: their texts separated by ", ". */
    method WriteParameters(ghost g: Graph, ps: seq<ParameterNode>, result: StringBuilder, knockout: bool,
                           deps: Dependencies)
      requires Closed(g) && CacheSound(g) && ParametersInGraph(g, ps)
      modifies result, deps`Views, deps`KoViews, g.classes`hasReadonly, g.props`hasReadonly
      ensures CacheSound(g) && CachesKept(g)
      ensures Settled(g, ParametersClasses(g, ps))
      ensures result.Text == old(result.Text) +
        Join(", ", ParameterTexts(g, ps, knockout, deps.PrefixModules, EditClasses(g)))
      ensures deps.Views == (old(deps.Views) || (deps.PrefixModules.Views && ParametersUseViews(g, ps, knockout)))
      ensures deps.KoViews ==
        (old(deps.KoViews) || (deps.PrefixModules.KoViews && ParametersUseKoViews(g, ps, knockout)))
    {
      assert ps[..0] == [];
      WriteParametersLoop(g, ps, result, knockout, deps, old(result.Text), old(deps.Views), old(deps.KoViews));
      assert ps[..|ps|] == ps;
    }

    /** The loop of `WriteParameters`, from no parameter written to all of them. */
    method WriteParametersLoop(ghost g: Graph, ps: seq<ParameterNode>, result: StringBuilder, knockout: bool,
                               deps: Dependencies, ghost o: string, ghost views: bool, ghost koViews: bool)
      requires Closed(g) && CacheSound(g)
      requires ParametersWritten(g, ps, 0, knockout, result, deps, o, views, koViews)
      modifies result, deps`Views, deps`KoViews, g.classes`hasReadonly, g.props`hasReadonly
      ensures CacheSound(g) && CachesKept(g)
      ensures ParametersWritten(g, ps, |ps|, knockout, result, deps, o, views, koViews)
    {
      var i := 0;
      while i < |ps|
        invariant i <= |ps|
        invariant CacheSound(g) && CachesKept(g)
        invariant ParametersWritten(g, ps, i, knockout, result, deps, o, views, koViews)
      {
        WriteParameterItem(g, ps, i, result, knockout, deps, o, views, koViews);
        i := i + 1;
      }
    }

    /** One turn of `WriteParameters`: ", " but before the first parameter, then the
        parameter; the texts of the parameters before it are unchanged. */
    method WriteParameterItem(ghost g: Graph, ps: seq<ParameterNode>, i: nat, result: StringBuilder,
                              knockout: bool, deps: Dependencies, ghost o: string,
                              ghost views: bool, ghost koViews: bool)
      requires Closed(g) && CacheSound(g) && i < |ps|
      requires ParametersWritten(g, ps, i, knockout, result, deps, o, views, koViews)
      modifies result, deps`Views, deps`KoViews, g.classes`hasReadonly, g.props`hasReadonly
      ensures CacheSound(g) && CachesKept(g)
      ensures ParametersWritten(g, ps, i + 1, knockout, result, deps, o, views, koViews)
    {
      if i > 0 {
        result.Append(", ");
      }
      WriteParameterAfter(g, ps, i, result, knockout, deps, o, views, koViews);
    }

    /** A parameter of `WriteParameters`, after the ", " that separates it from those before it. */
    method WriteParameterAfter(ghost g: Graph, ps: seq<ParameterNode>, i: nat, result: StringBuilder,
                               knockout: bool, deps: Dependencies, ghost o: string,
                               ghost views: bool, ghost koViews: bool)
      requires Closed(g) && CacheSound(g) && i < |ps| && ParametersInGraph(g, ps)
      requires Settled(g, ParametersClasses(g, ps[..i]))
      requires var texts := ParameterTexts(g, ps[..i], knockout, deps.PrefixModules, EditClasses(g));
        result.Text == o + Join(", ", texts) + (if texts != [] then ", " else "")
      requires deps.Views == (views || (deps.PrefixModules.Views && ParametersUseViews(g, ps[..i], knockout)))
      requires deps.KoViews == (koViews || (deps.PrefixModules.KoViews && ParametersUseKoViews(g, ps[..i], knockout)))
      modifies result, deps`Views, deps`KoViews, g.classes`hasReadonly, g.props`hasReadonly
      ensures CacheSound(g) && CachesKept(g)
      ensures ParametersWritten(g, ps, i + 1, knockout, result, deps, o, views, koViews)
    {
      var prefix := deps.PrefixModules;
      ghost var before := EditClasses(g);
      ghost var texts := ParameterTexts(g, ps[..i], knockout, prefix, before);
      label Before:
      WriteParameter(g, ps[i], result, knockout, deps);
      ghost var item := ParameterText(g, ps[i], knockout, prefix, EditClasses(g));
      EditKept@Before(g, ParametersClasses(g, ps[..i]));
      ParameterTextsAgree(g, ps[..i], knockout, prefix, before, EditClasses(g));
      ParametersSnoc(g, ps, i, knockout, prefix, EditClasses(g));
      JoinAppend(o, ", ", texts, item);
    }

    /** The method's first line: its name and the type of its `params` object. */
    method WriteSignature(ghost g: Graph, name: string, a: ActionNode, result: StringBuilder, knockout: bool,
                          deps: Dependencies)
      requires Closed(g) && CacheSound(g) && ParametersInGraph(g, a.Parameters)
      modifies result, deps`Views, deps`KoViews, g.classes`hasReadonly, g.props`hasReadonly
      ensures CacheSound(g) && CachesKept(g)
      ensures Settled(g, ParametersClasses(g, a.Parameters))
      ensures result.Text == old(result.Text) + SignatureText(g, name, a, knockout, deps.PrefixModules, EditClasses(g))
      ensures deps.Views ==
        (old(deps.Views) || (deps.PrefixModules.Views && ParametersUseViews(g, a.Parameters, knockout)))
      ensures deps.KoViews ==
        (old(deps.KoViews) || (deps.PrefixModules.KoViews && ParametersUseKoViews(g, a.Parameters, knockout)))
    {
      ghost var o := result.Text;
      result.Append(Tab + name + "(params: {");
      ghost var acc := Tab + name + "(params: {";
      WriteParameters(g, a.Parameters, result, knockout, deps);
      label Written:
      ghost var list := Join(", ", ParameterTexts(g, a.Parameters, knockout, deps.PrefixModules, EditClasses(g)));
      AppendAssoc(o, acc, list);
      acc := acc + list;
      result.Append("}");
      AppendAssoc(o, acc, "}");
      result.AppendLine(") {");
      AppendLineAssoc(o, acc + "}", ") {");
      EditSame@Written(g);
    }

    /** The knockout type after the view type, for an observable returned in knockout mode. */
    method WriteKoTypeArgument(ghost g: Graph, t: TypeNode, result: StringBuilder, knockout: bool,
                               deps: Dependencies)
      requires Closed(g) && CacheSound(g) && TypeInGraph(g, t)
      modifies result, deps`Views, deps`KoViews, g.classes`hasReadonly, g.props`hasReadonly
      ensures CacheSound(g) && CachesKept(g)
      ensures result.Text == old(result.Text) +
        (if Observed(t, knockout) then ", " + TypeText(g, t, false, true, true, deps.PrefixModules, {}) else "")
      ensures deps.Views == (old(deps.Views) || (deps.PrefixModules.Views && Observed(t, knockout) && UsesViews(g, t, true)))
      ensures deps.KoViews ==
        (old(deps.KoViews) || (deps.PrefixModules.KoViews && Observed(t, knockout) && UsesKoViews(g, t, true)))
    {
      if Observed(t, knockout) {
        ghost var o := result.Text;
        result.Append(", ");
        WriteType(g, t, result, false, deps, true, true);
        TypeTextAgree(g, t, false, true, true, deps.PrefixModules, EditClasses(g), {});
        AppendAssoc(o, ", ", TypeText(g, t, false, true, true, deps.PrefixModules, {}));
      }
    }

    /** The type arguments of the fetch helper: `string, Date` for a date; otherwise the
        type, and the knockout type after it for an observable. */
    method WriteReturnTypeArguments(ghost g: Graph, t: TypeNode, result: StringBuilder, knockout: bool,
                                    deps: Dependencies)
      requires Closed(g) && CacheSound(g) && TypeInGraph(g, t)
      modifies result, deps`Views, deps`KoViews, g.classes`hasReadonly, g.props`hasReadonly
      ensures CacheSound(g) && CachesKept(g)
      ensures result.Text == old(result.Text) + ReturnTypeArguments(g, t, knockout, deps.PrefixModules)
      ensures deps.Views == (old(deps.Views) || (deps.PrefixModules.Views && t.Type != DateTime &&
        (UsesViews(g, t, false) || (Observed(t, knockout) && UsesViews(g, t, true)))))
      ensures deps.KoViews == (old(deps.KoViews) || (deps.PrefixModules.KoViews && t.Type != DateTime &&
        (UsesKoViews(g, t, false) || (Observed(t, knockout) && UsesKoViews(g, t, true)))))
    {
      if t.Type == DateTime {
        result.Append("string, Date");
      } else {
        ghost var o := result.Text;
        WriteType(g, t, result, false, deps, false, true);
        TypeTextAgree(g, t, false, false, true, deps.PrefixModules, EditClasses(g), {});
        ghost var view := TypeText(g, t, false, false, true, deps.PrefixModules, {});
        WriteKoTypeArgument(g, t, result, knockout, deps);
        AppendAssoc(o, view,
          if Observed(t, knockout) then ", " + TypeText(g, t, false, true, true, deps.PrefixModules, {}) else "");
      }
    }

    /** The fetch helper's name and type arguments: `Void`; or `List` or `Single`, with a
        `T` when the response is converted. */
    method WriteFetch(ghost g: Graph, r: Option<ReturnNode>, result: StringBuilder, knockout: bool,
                      deps: Dependencies)
      requires Closed(g) && CacheSound(g) && (r.Some? ==> TypeInGraph(g, r.value.Type))
      modifies result, deps`Views, deps`KoViews, g.classes`hasReadonly, g.props`hasReadonly
      ensures CacheSound(g) && CachesKept(g)
      ensures result.Text == old(result.Text) + FetchText(g, r, knockout, deps.PrefixModules)
      ensures deps.Views == (old(deps.Views) || (deps.PrefixModules.Views && ReturnUsesViews(g, r, knockout)))
      ensures deps.KoViews ==
        (old(deps.KoViews) || (deps.PrefixModules.KoViews && ReturnUsesKoViews(g, r, knockout)))
    {
      if r.None? {
        result.Append("Void");
      } else {
        ghost var o := result.Text;
        var t := r.value.Type;
        var kind := if t.IsCollection() then "List" else "Single";
        result.Append(kind);
        ghost var start := result.Text;
        ghost var tail := if Observed(t, knockout) || t.Type == DateTime then "T" else "";
        if Observed(t, knockout) || t.Type == DateTime {
          result.Append("T");
        } else {
          assert result.Text == start + tail;
        }
        result.Append("<");
        AppendAssoc(start, tail, "<");
        tail := tail + "<";
        WriteReturnTypeArguments(g, t, result, knockout, deps);
        ghost var arguments := ReturnTypeArguments(g, t, knockout, deps.PrefixModules);
        AppendAssoc(start, tail, arguments);
        tail := tail + arguments;
        result.Append(">");
        AppendAssoc(start, tail, ">");
        tail := tail + ">";
        assert kind + tail == FetchText(g, r, knockout, deps.PrefixModules);
        AppendAssoc(o, kind, tail);
      }
    }

    /** The URL: the route as a template literal when a parameter is bound to the path, as a
        string literal otherwise. */
    method WriteRoute(a: ActionNode, result: StringBuilder)
      modifies result
      ensures result.Text == old(result.Text) + RouteText(a)
    {
      if HasPosition(a.Parameters, Path) {
        var route := ReplaceAll(ReplaceAll(a.Route, "{", "${params."), "?", "");
        result.Append("(`" + route + "`");
      } else {
        result.Append("(\"" + a.Route + "\"");
      }
    }

    /** One entry of the query object, after its separator. */
    method WriteQueryEntry(p: ParameterNode, result: StringBuilder)
      modifies result
      ensures result.Text == old(result.Text) + QueryEntry(p)
    {
      ghost var o := result.Text;
      result.Append(p.Name + ": params." + p.Name);
      if p.Type.Type == DateTime {
        result.Append(" && params." + p.Name + ".toISOString()");
        AppendAssoc(o, p.Name + ": params." + p.Name, " && params." + p.Name + ".toISOString()");
      }
    }

    /** The `foreach` over the query parameters, with its `first` flag: their entries
        separated by ", ". */
    method WriteQueryEntries(ps: seq<ParameterNode>, result: StringBuilder)
      modifies result
      ensures result.Text == old(result.Text) + Join(", ", QueryEntries(ps))
    {
      var first := true;
      var i := 0;
      while i < |ps|
        invariant 0 <= i <= |ps|
        invariant first <==> QueryEntries(ps[..i]) == []
        invariant result.Text == old(result.Text) + Join(", ", QueryEntries(ps[..i]))
      {
        ghost var entries := QueryEntries(ps[..i]);
        assert ps[..i + 1][..i] == ps[..i];
        assert QueryEntries(ps[..i + 1]) == entries + (if ps[i].Position == Query then [QueryEntry(ps[i])] else []);
        if ps[i].Position == Query {
          if first {
            first := false;
          } else {
            result.Append(", ");
          }
          assert result.Text == old(result.Text) + Join(", ", entries) + (if entries != [] then ", " else "");
          WriteQueryEntry(ps[i], result);
          JoinAppend(old(result.Text), ", ", entries, QueryEntry(ps[i]));
        } else {
          assert QueryEntries(ps[..i + 1]) == entries;
        }
        i := i + 1;
      }
      assert ps[..i] == ps;
    }

    /** The query string added to the URL when a parameter is bound to the query. */
    method WriteQuery(a: ActionNode, result: StringBuilder)
      modifies result
      ensures result.Text == old(result.Text) + QueryText(a)
    {
      if HasPosition(a.Parameters, Query) {
        ghost var o := result.Text;
        result.Append(" + helpers.getQueryString({ ");
        WriteQueryEntries(a.Parameters, result);
        ghost var entries := Join(", ", QueryEntries(a.Parameters));
        AppendAssoc(o, " + helpers.getQueryString({ ", entries);
        result.Append(" })");
        AppendAssoc(o, " + helpers.getQueryString({ " + entries, " })");
      }
    }

    /** The conversion of the response: a date is parsed, and in knockout mode an observable
        is wrapped in its knockout class, which raises the `KoViews` flag. */
    method WriteConverter(r: Option<ReturnNode>, result: StringBuilder, knockout: bool, deps: Dependencies)
      modifies result, deps`KoViews
      ensures result.Text == old(result.Text) + ConverterText(r, knockout)
      ensures deps.KoViews == (old(deps.KoViews) || ConvertsToKo(r, knockout))
    {
      if r.Some? {
        var t := r.value.Type;
        if t.Type == DateTime {
          result.Append(", view => new Date(view)");
        } else if Observed(t, knockout) {
          ghost var o := result.Text;
          deps.KoViews := true;
          result.Append(", view => new koViews.");
          var name := t.Class.KoName.GetOr("");
          result.Append(name);
          AppendAssoc(o, ", view => new koViews.", name);
          result.Append("(view)");
          AppendAssoc(o, ", view => new koViews." + name, "(view)");
        }
      }
    }

    /** The request body: the first parameter bound to the body, serialised, or `null`. */
    method WriteBody(ps: seq<ParameterNode>, result: StringBuilder, knockout: bool)
      modifies result
      ensures result.Text == old(result.Text) + BodyText(ps, knockout)
    {
      var body := FirstBody(ps);
      FirstBodySpec(ps);
      if body.None? {
        result.Append(", null");
      } else {
        ghost var o := result.Text;
        var p := ps[body.value];
        result.Append(", JSON.stringify(params.");
        result.Append(p.Name);
        AppendAssoc(o, ", JSON.stringify(params.", p.Name);
        ghost var acc := ", JSON.stringify(params." + p.Name;
        ghost var toJs := if Observed(p.Type, knockout) then ".toJs()" else "";
        if Observed(p.Type, knockout) {
          result.Append(".toJs()");
        }
        assert result.Text == o + acc + toJs;
        AppendAssoc(o, acc, toJs);
        result.Append(")");
        AppendAssoc(o, acc + toJs, ")");
      }
    }

    /** The verb, the conversion and the body. */
    method WriteArguments(a: ActionNode, result: StringBuilder, knockout: bool, deps: Dependencies)
      modifies result, deps`KoViews
      ensures result.Text == old(result.Text) + ArgumentsText(a, knockout)
      ensures deps.KoViews == (old(deps.KoViews) || ConvertsToKo(a.Return, knockout))
    {
      ghost var o := result.Text;
      result.Append(", \"");
      match a.Type {
        case Delete => result.Append("DELETE");
        case Get => result.Append("GET");
        case Post => result.Append("POST");
        case Put => result.Append("PUT");
      }
      AppendAssoc(o, ", \"", VerbText(a.Type));
      ghost var acc := ", \"" + VerbText(a.Type);
      result.Append("\"");
      AppendAssoc(o, acc, "\"");
      acc := acc + "\"";
      WriteConverter(a.Return, result, knockout, deps);
      AppendAssoc(o, acc, ConverterText(a.Return, knockout));
      acc := acc + ConverterText(a.Return, knockout);
      WriteBody(a.Parameters, result, knockout);
      AppendAssoc(o, acc, BodyText(a.Parameters, knockout));
    }

    /** The call after the fetch helper's name, and the end of the method. */
    method WriteRequest(a: ActionNode, result: StringBuilder, knockout: bool, deps: Dependencies)
      modifies result, deps`KoViews
      ensures result.Text == old(result.Text) + RequestText(a, knockout)
      ensures deps.KoViews == (old(deps.KoViews) || ConvertsToKo(a.Return, knockout))
    {
      ghost var o := result.Text;
      WriteRoute(a, result);
      ghost var acc := RouteText(a);
      WriteQuery(a, result);
      AppendAssoc(o, acc, QueryText(a));
      acc := acc + QueryText(a);
      WriteArguments(a, result, knockout, deps);
      AppendAssoc(o, acc, ArgumentsText(a, knockout));
      acc := acc + ArgumentsText(a, knockout);
      result.AppendLine(");");
      AppendLineAssoc(o, acc, ");");
      acc := acc + ");" + NewLine;
      result.AppendLine(Tab + "}");
      AppendLineAssoc(o, acc, Tab + "}");
    }

    /** The `return helpers.fetch…;` statement: the return type is written twice at most, out
        of edition mode. */
    method WriteCall(ghost g: Graph, a: ActionNode, result: StringBuilder, knockout: bool, deps: Dependencies)
      requires Closed(g) && CacheSound(g) && (a.Return.Some? ==> TypeInGraph(g, a.Return.value.Type))
      modifies result, deps`Views, deps`KoViews, g.classes`hasReadonly, g.props`hasReadonly
      ensures CacheSound(g) && CachesKept(g)
      ensures result.Text == old(result.Text) + CallText(g, a, knockout, deps.PrefixModules)
      ensures deps.Views == (old(deps.Views) || (deps.PrefixModules.Views && ReturnUsesViews(g, a.Return, knockout)))
      ensures deps.KoViews == (old(deps.KoViews) ||
        (deps.PrefixModules.KoViews && ReturnUsesKoViews(g, a.Return, knockout)) || ConvertsToKo(a.Return, knockout))
    {
      ghost var o := result.Text;
      var start := Tab + Tab + "return helpers.fetch";
      result.Append(start);
      WriteFetchRequest(g, a, result, knockout, deps);
      ghost var fetch := FetchText(g, a.Return, knockout, deps.PrefixModules);
      ghost var request := RequestText(a, knockout);
      AppendAssoc(o, start, fetch + request);
      AppendAssoc(start, fetch, request);
    }

    /** The fetch helper and the request of a call. */
    method WriteFetchRequest(ghost g: Graph, a: ActionNode, result: StringBuilder, knockout: bool, deps: Dependencies)
      requires Closed(g) && CacheSound(g) && (a.Return.Some? ==> TypeInGraph(g, a.Return.value.Type))
      modifies result, deps`Views, deps`KoViews, g.classes`hasReadonly, g.props`hasReadonly
      ensures CacheSound(g) && CachesKept(g)
      ensures result.Text == old(result.Text) + (FetchText(g, a.Return, knockout, deps.PrefixModules) + RequestText(a, knockout))
      ensures deps.Views == (old(deps.Views) || (deps.PrefixModules.Views && ReturnUsesViews(g, a.Return, knockout)))
      ensures deps.KoViews == (old(deps.KoViews) ||
        (deps.PrefixModules.KoViews && ReturnUsesKoViews(g, a.Return, knockout)) || ConvertsToKo(a.Return, knockout))
    {
      ghost var o := result.Text;
      WriteFetch(g, a.Return, result, knockout, deps);
      ghost var fetch := FetchText(g, a.Return, knockout, deps.PrefixModules);
      WriteRequest(a, result, knockout, deps);
      AppendAssoc(o, fetch, RequestText(a, knockout));
    }

    /** `WriteAction`: an empty line, the doc block, the signature and the call. The types of
        the parameters are written in edition mode, so their classes answer `HasReadOnly`. */
    method WriteAction(ghost g: Graph, name: string, a: ActionNode, result: StringBuilder, knockout: bool,
                       deps: Dependencies)
      requires Closed(g) && CacheSound(g) && ActionInGraph(g, a)
      modifies result, deps`Views, deps`KoViews, g.classes`hasReadonly, g.props`hasReadonly
      ensures CacheSound(g) && CachesKept(g)
      ensures Settled(g, ParametersClasses(g, a.Parameters))
      ensures result.Text == old(result.Text) + ActionText(g, name, a, knockout, deps.PrefixModules, EditClasses(g))
      ensures deps.Views == (old(deps.Views) || (deps.PrefixModules.Views && ActionUsesViews(g, a, knockout)))
      ensures deps.KoViews == (old(deps.KoViews) ||
        (deps.PrefixModules.KoViews && ActionUsesKoViews(g, a, knockout)) || ConvertsToKo(a.Return, knockout))
    {
      ghost var o := result.Text;
      WriteActionHead(a, result);
      ghost var head := NewLine + DocBlockText(a);
      WriteActionCode(g, name, a, result, knockout, deps);
      ghost var signature := SignatureText(g, name, a, knockout, deps.PrefixModules, EditClasses(g));
      ghost var call := CallText(g, a, knockout, deps.PrefixModules);
      AppendAssoc(o, head, signature + call);
      AppendAssoc(head, signature, call);
    }

    /** The signature and the call of an action. */
    method WriteActionCode(ghost g: Graph, name: string, a: ActionNode, result: StringBuilder, knockout: bool,
                           deps: Dependencies)
      requires Closed(g) && CacheSound(g) && ActionInGraph(g, a)
      modifies result, deps`Views, deps`KoViews, g.classes`hasReadonly, g.props`hasReadonly
      ensures CacheSound(g) && CachesKept(g)
      ensures Settled(g, ParametersClasses(g, a.Parameters))
      ensures result.Text == old(result.Text) +
        (SignatureText(g, name, a, knockout, deps.PrefixModules, EditClasses(g)) + CallText(g, a, knockout, deps.PrefixModules))
      ensures deps.Views == (old(deps.Views) || (deps.PrefixModules.Views && ActionUsesViews(g, a, knockout)))
      ensures deps.KoViews == (old(deps.KoViews) ||
        (deps.PrefixModules.KoViews && ActionUsesKoViews(g, a, knockout)) || ConvertsToKo(a.Return, knockout))
    {
      ghost var o := result.Text;
      var prefix := deps.PrefixModules;
      WriteSignature(g, name, a, result, knockout, deps);
      label Signed:
      ghost var before := EditClasses(g);
      ghost var signature := SignatureText(g, name, a, knockout, prefix, before);
      WriteCall(g, a, result, knockout, deps);
      AppendAssoc(o, signature, CallText(g, a, knockout, prefix));
      EditKept@Signed(g, ParametersClasses(g, a.Parameters));
      ParameterTextsAgree(g, a.Parameters, knockout, prefix, before, EditClasses(g));
    }

    /** The empty line and the doc block that open an action. */
    method WriteActionHead(a: ActionNode, result: StringBuilder)
      modifies result
      ensures result.Text == old(result.Text) + (NewLine + DocBlockText(a))
    {
      result.AppendEmptyLine();
      EmptyAppend(NewLine);
      WriteDocBlock(a, result);
      AppendAssoc(old(result.Text), NewLine, DocBlockText(a));
    }

    /** The method name of the `i`-th action in `WriteActions`: its camel-cased name, then
        its place among the actions of the same name when there are several. */
    method ActionMethodName(actions: seq<ActionNode>, i: nat) returns (methodName: string)
      requires i < |actions|
      ensures methodName == MethodName(actions, i)
    {
      methodName := ToCamelCase(actions[i].Name);
      if CountNamed(actions, actions[i].Name) > 1 {
        methodName := methodName + IntToString(SameNameIndex(actions, i) + 1);
      }
    }

    /** One turn of `WriteActions`: the method name of the `i`-th action, with its place among
        the actions of the same name when there are several, then the action. */
    method WriteActionItem(ghost g: Graph, actions: seq<ActionNode>, i: nat, result: StringBuilder, knockout: bool,
                           deps: Dependencies, ghost o: string, ghost views: bool, ghost koViews: bool)
      requires Closed(g) && CacheSound(g) && ActionsInGraph(g, actions) && i < |actions|
      requires ActionsWritten(g, actions, i, knockout, result, deps, o, views, koViews)
      modifies result, deps`Views, deps`KoViews, g.classes`hasReadonly, g.props`hasReadonly
      ensures CacheSound(g) && CachesKept(g)
      ensures ActionsWritten(g, actions, i + 1, knockout, result, deps, o, views, koViews)
    {
      var prefix := deps.PrefixModules;
      var methodName := ActionMethodName(actions, i);
      ghost var before := EditClasses(g);
      label Before:
      WriteAction(g, methodName, actions[i], result, knockout, deps);
      EditKept@Before(g, ActionsClasses(g, actions, i));
      ActionsTextAgree(g, actions, i, knockout, prefix, before, EditClasses(g));
      ActionsWrittenNext(g, actions, i, knockout, result, deps, o, views, koViews);
    }

    /** `WriteActions`: the controller's actions ordered by name and then by number of
        parameters, each under its method name. */
    method WriteActions(ghost g: Graph, c: ActionsGroupNode, result: StringBuilder, knockout: bool,
                        deps: Dependencies)
      requires Closed(g) && CacheSound(g) && ControllerInGraph(g, c)
      modifies result, deps`Views, deps`KoViews, g.classes`hasReadonly, g.props`hasReadonly
      ensures CacheSound(g) && CachesKept(g)
      ensures Settled(g, ControllerClasses(g, c))
      ensures var actions := SortedActions(c.Actions);
        result.Text == old(result.Text) + ActionsText(g, actions, |actions|, knockout, deps.PrefixModules, EditClasses(g))
      ensures var actions := SortedActions(c.Actions);
        deps.Views == (old(deps.Views) || (deps.PrefixModules.Views && ActionsUseViews(g, actions, |actions|, knockout)))
      ensures var actions := SortedActions(c.Actions);
        deps.KoViews == (old(deps.KoViews) || (deps.PrefixModules.KoViews && ActionsUseKoViews(g, actions, |actions|, knockout)) ||
                         ActionsConvertToKo(actions, |actions|, knockout))
    {
      var actions := SortedActions(c.Actions);
      WriteActionList(g, actions, result, knockout, deps);
    }

    /** The loop of `WriteActions` over the ordered actions. */
    method WriteActionList(ghost g: Graph, actions: seq<ActionNode>, result: StringBuilder, knockout: bool,
                           deps: Dependencies)
      requires Closed(g) && CacheSound(g) && ActionsInGraph(g, actions)
      modifies result, deps`Views, deps`KoViews, g.classes`hasReadonly, g.props`hasReadonly
      ensures CacheSound(g) && CachesKept(g)
      ensures ActionsWritten(g, actions, |actions|, knockout, result, deps, old(result.Text), old(deps.Views),
                             old(deps.KoViews))
    {
      ghost var o, views, koViews := result.Text, deps.Views, deps.KoViews;
      var i := 0;
      while i < |actions|
        invariant 0 <= i <= |actions|
        invariant CacheSound(g) && CachesKept(g)
        invariant ActionsWritten(g, actions, i, knockout, result, deps, o, views, koViews)
      {
        WriteActionItem(g, actions, i, result, knockout, deps, o, views, koViews);
        i := i + 1;
      }
    }

    /** The class of a controller module: its doc comment, the class and its actions, and
        the end of the class. */
    method WriteControllerBody(ghost g: Graph, c: ActionsGroupNode, result: StringBuilder, knockout: bool,
                               deps: Dependencies)
      requires Closed(g) && CacheSound(g) && ControllerInGraph(g, c) && deps.PrefixModules == AllPrefixes
      modifies result, deps`Views, deps`KoViews, g.classes`hasReadonly, g.props`hasReadonly
      ensures CacheSound(g) && CachesKept(g)
      ensures Settled(g, ControllerClasses(g, c))
      ensures result.Text == old(result.Text) + ControllerBodyText(g, c, knockout, EditClasses(g))
      ensures deps.Views == (old(deps.Views) || ControllerUsesViews(g, c, knockout))
      ensures deps.KoViews == (old(deps.KoViews) || ControllerUsesKoViews(g, c, knockout))
    {
      ghost var o := result.Text;
      AppendFormatDocumentation(result, c.Documentation, None);
      ghost var acc := DocText(c.Documentation, None);
      result.AppendLine("export class " + c.Name + "Controller {");
      AppendLineAssoc(o, acc, "export class " + c.Name + "Controller {");
      acc := acc + ("export class " + c.Name + "Controller {") + NewLine;
      WriteActions(g, c, result, knockout, deps);
      label Written:
      ghost var actions := SortedActions(c.Actions);
      ghost var body := ActionsText(g, actions, |actions|, knockout, AllPrefixes, EditClasses(g));
      AppendAssoc(o, acc, body);
      acc := acc + body;
      result.AppendLine("}");
      AppendLineAssoc(o, acc, "}");
      acc := acc + "}" + NewLine;
      result.AppendEmptyLine();
      AppendAssoc(o, acc, NewLine);
      EditSame@Written(g);
    }

    /** The imports of the modules a controller's class uses: `views` and, in knockout mode,
        `koViews`. */
    method WriteControllerImports(result: StringBuilder, knockout: bool, views: bool, koViews: bool)
      modifies result
      ensures result.Text == old(result.Text) + ControllerImportsText(knockout, views, koViews)
    {
      if knockout {
        ghost var o := result.Text;
        ghost var first := if views then "import * as views from \"../views\";" + NewLine else "";
        if views {
          result.AppendLine("import * as views from \"../views\";");
        }
        assert result.Text == o + first;
        if koViews {
          result.AppendLine("import * as koViews from \"./views\";");
          AppendLineAssoc(o, first, "import * as koViews from \"./views\";");
          AppendAssoc(first, "import * as koViews from \"./views\";", NewLine);
        }
      } else if views {
        result.AppendLine("import * as views from \"./views\";");
      }
    }

    /** The head of a controller module: the header, the import of the fetch helpers, the
        imports of the modules its class uses and an empty line. */
    method WriteControllerHead(result: StringBuilder, knockout: bool, views: bool, koViews: bool)
      modifies result
      ensures result.Text == old(result.Text) + ControllerHeadText(ServiceHelpersModule, knockout, views, koViews)
    {
      ghost var o := result.Text;
      result.AppendLine(GeneratedHeader);
      AppendAssoc(o, GeneratedHeader, NewLine);
      ghost var acc := GeneratedHeader + NewLine;
      result.AppendLine("import * as helpers from \"" + ServiceHelpersModule + "\";");
      AppendLineAssoc(o, acc, "import * as helpers from \"" + ServiceHelpersModule + "\";");
      acc := acc + ("import * as helpers from \"" + ServiceHelpersModule + "\";") + NewLine;
      WriteControllerImports(result, knockout, views, koViews);
      AppendAssoc(o, acc, ControllerImportsText(knockout, views, koViews));
      acc := acc + ControllerImportsText(knockout, views, koViews);
      result.AppendEmptyLine();
      AppendAssoc(o, acc, NewLine);
    }

    /** `WriteController`: the module of a controller, under its camel-cased name (in `ko/` in
        knockout mode), importing the modules its actions use. */
    method WriteController(ghost g: Graph, c: ActionsGroupNode, knockout: bool) returns (ok: bool)
      requires Closed(g) && CacheSound(g) && ControllerInGraph(g, c)
      modifies this`OutputModules, g.classes`hasReadonly, g.props`hasReadonly
      ensures CacheSound(g) && CachesKept(g)
      ensures Settled(g, ControllerClasses(g, c))
      ensures ok == (ControllerKey(c, knockout) !in old(OutputModules))
      ensures OutputModules == if ok then old(OutputModules)[ControllerKey(c, knockout) :=
        ControllerModule(g, c, knockout, ServiceHelpersModule, EditClasses(g))] else old(OutputModules)
    {
      var deps := new Dependencies(AllPrefixes);
      var body := new StringBuilder();
      WriteControllerBody(g, c, body, knockout, deps);
      EmptyAppend(ControllerBodyText(g, c, knockout, EditClasses(g)));
      label Written:
      ok := AddControllerModule(c, knockout, deps.Views, deps.KoViews, body.Text);
      EditSame@Written(g);
    }

    /** The end of `WriteController`: the head of the module before the class's text, added
        under the controller's key when the key is new. */
    method AddControllerModule(c: ActionsGroupNode, knockout: bool, views: bool, koViews: bool, body: string)
      returns (ok: bool)
      modifies this`OutputModules
      ensures ok == (ControllerKey(c, knockout) !in old(OutputModules))
      ensures OutputModules == if ok then old(OutputModules)[ControllerKey(c, knockout) :=
        ControllerModuleText(ServiceHelpersModule, knockout, views, koViews, body)] else old(OutputModules)
    {
      var moduleName := ToCamelCase(c.Name);
      var result := new StringBuilder();
      WriteControllerHead(result, knockout, views, koViews);
      EmptyAppend(ControllerHeadText(ServiceHelpersModule, knockout, views, koViews));
      result.Append(body);
      EmptyAppend(moduleName);
      ok := AddModule(if knockout then "ko/" + moduleName else moduleName, result.Text);
    }

    /** The `foreach` over the controllers of `WriteAssembly`: each controller's module, until
        a key is met twice. */
    method WriteControllers(ghost g: Graph, cs: seq<ActionsGroupNode>, knockout: bool) returns (ok: bool)
      requires Closed(g) && CacheSound(g) && forall i :: 0 <= i < |cs| ==> ControllerInGraph(g, cs[i])
      modifies this`OutputModules, g.classes`hasReadonly, g.props`hasReadonly
      ensures CacheSound(g) && CachesKept(g)
      ensures ok <==> FreshKeys(old(OutputModules), ControllerKeys(cs, knockout))
      ensures ok ==> Settled(g, ControllersClasses(g, cs, |cs|))
      ensures ok ==>
        OutputModules == ControllerModules(old(OutputModules), g, cs, |cs|, knockout, ServiceHelpersModule, EditClasses(g))
    {
      ghost var keys := ControllerKeys(cs, knockout);
      ghost var m := OutputModules;
      ControllersWrittenNone(g, cs, knockout, ServiceHelpersModule, m);
      var i := 0;
      while i != |cs|
        invariant CacheSound(g) && CachesKept(g)
        invariant ControllersWritten(g, cs, i, knockout, ServiceHelpersModule, m, OutputModules)
      {
        ok := WriteControllerItem(g, cs, i, knockout, m);
        if !ok {
          FreshKeysPrefix(m, keys, i + 1);
          return;
        }
        i := i + 1;
      }
      ControllersWrittenAll(g, cs, knockout, ServiceHelpersModule, m, OutputModules);
      ok := true;
    }

    /** One turn of `WriteControllers`: the module of the `i`-th controller, added when its
        key is new. */
    method WriteControllerItem(ghost g: Graph, cs: seq<ActionsGroupNode>, i: nat, knockout: bool,
                               ghost m: map<string, string>) returns (ok: bool)
      requires Closed(g) && CacheSound(g) && i < |cs|
      requires ControllersWritten(g, cs, i, knockout, ServiceHelpersModule, m, OutputModules)
      modifies this`OutputModules, g.classes`hasReadonly, g.props`hasReadonly
      ensures CacheSound(g) && CachesKept(g)
      ensures ok <==> FreshKeys(m, ControllerKeys(cs, knockout)[..i + 1])
      ensures ok ==> ControllersWritten(g, cs, i + 1, knockout, ServiceHelpersModule, m, OutputModules)
    {
      ghost var before := EditClasses(g);
      ControllerModulesNextKey(m, g, cs, i, knockout, ServiceHelpersModule, before);
      label Before:
      ok := WriteController(g, cs[i], knockout);
      EditKept@Before(g, ControllersClasses(g, cs, i));
      ControllerModulesAgree(m, g, cs, i, knockout, ServiceHelpersModule, before, EditClasses(g));
      ControllerModulesStep(m, g, cs, i, knockout, ServiceHelpersModule, EditClasses(g));
      ControllersClassesNext(g, cs, i);
    }

    /** `WriteViews`: the definitions of the assembly's types, out of edition mode and
        without module prefixes, as the `views` module. */
    method WriteViews(ghost g: Graph, types: seq<TypeEntry>) returns (ok: bool)
      requires Closed(g) && CacheSound(g) && TypesInGraph(g, types)
      modifies this`OutputModules, g.classes`hasReadonly, g.props`hasReadonly
      ensures CacheSound(g) && CachesKept(g)
      ensures ok == (ViewsKey(false) !in old(OutputModules))
      ensures OutputModules == if ok then old(OutputModules)[ViewsKey(false) := ViewsText(g, types)] else old(OutputModules)
    {
      var result := new StringBuilder();
      var deps := new Dependencies(NoPrefix);
      WriteViewList(g, types, result, deps);
      ok := AddModule("views", result.Text);
    }

    /** The loop of `WriteViews` over the types, into an empty builder. */
    method WriteViewList(ghost g: Graph, types: seq<TypeEntry>, result: StringBuilder, deps: Dependencies)
      requires Closed(g) && CacheSound(g) && TypesInGraph(g, types)
      requires result.Text == "" && deps.PrefixModules == NoPrefix
      modifies result, deps`Views, deps`KoViews, g.classes`hasReadonly, g.props`hasReadonly
      ensures CacheSound(g) && CachesKept(g)
      ensures result.Text == ViewsText(g, types)
    {
      var i := 0;
      while i < |types|
        invariant 0 <= i <= |types|
        invariant CacheSound(g) && CachesKept(g)
        invariant result.Text == ViewsText(g, types[..i])
      {
        WriteViewItem(g, types, i, result, deps);
        i := i + 1;
      }
      assert types[..i] == types;
    }

    /** One turn of `WriteViews`: the definition of the `i`-th type. */
    method WriteViewItem(ghost g: Graph, types: seq<TypeEntry>, i: nat, result: StringBuilder, deps: Dependencies)
      requires Closed(g) && CacheSound(g) && TypesInGraph(g, types) && i < |types|
      requires result.Text == ViewsText(g, types[..i]) && deps.PrefixModules == NoPrefix
      modifies result, deps`Views, deps`KoViews, g.classes`hasReadonly, g.props`hasReadonly
      ensures CacheSound(g) && CachesKept(g)
      ensures result.Text == ViewsText(g, types[..i + 1])
    {
      WriteTypeDefinition(g, types[i].Value, result, false, deps);
      DefinitionTextAgree(g, types[i].Value, false, NoPrefix, EditClasses(g), {});
      ViewsTextNext(g, types, i);
    }

    /** Appends each line with a line break, in order. */
    method AppendLines(output: StringBuilder, lines: seq<string>)
      modifies output
      ensures output.Text == old(output.Text) + LinesText(lines)
    {
      var i := 0;
      while i < |lines|
        invariant 0 <= i <= |lines|
        invariant output.Text == old(output.Text) + LinesText(lines[..i])
      {
        output.AppendLine(lines[i]);
        assert lines[..i + 1][..i] == lines[..i];
        AppendLineAssoc(old(output.Text), LinesText(lines[..i]), lines[i]);
        i := i + 1;
      }
      assert lines[..i] == lines;
    }

    /** The services module: the imports, one instance per controller and the `services`
        object that lists them. */
    method WriteServices(cs: seq<ActionsGroupNode>, knockout: bool, output: StringBuilder)
      modifies output
      ensures output.Text == old(output.Text) + ServicesText(cs, knockout, ServiceHelpersModule)
    {
      ghost var o := output.Text;
      AppendLines(output, ImportLines(cs));
      ghost var lines := ImportLines(cs);
      AppendLines(output, ViewsImportLines(knockout));
      LinesTextAppend(lines, ViewsImportLines(knockout));
      AppendAssoc(o, LinesText(lines), LinesText(ViewsImportLines(knockout)));
      lines := lines + ViewsImportLines(knockout);
      AppendLines(output, LoadingLines(ServiceHelpersModule));
      LinesTextAppend(lines, LoadingLines(ServiceHelpersModule));
      AppendAssoc(o, LinesText(lines), LinesText(LoadingLines(ServiceHelpersModule)));
      lines := lines + LoadingLines(ServiceHelpersModule);
      AppendLines(output, ConstantLines(cs));
      LinesTextAppend(lines, ConstantLines(cs));
      AppendAssoc(o, LinesText(lines), LinesText(ConstantLines(cs)));
      lines := lines + ConstantLines(cs);
      AppendLines(output, [ServicesOpen]);
      LinesTextAppend(lines, [ServicesOpen]);
      AppendAssoc(o, LinesText(lines), LinesText([ServicesOpen]));
      lines := lines + [ServicesOpen];
      AppendLines(output, EntryLines(cs));
      LinesTextAppend(lines, EntryLines(cs));
      AppendAssoc(o, LinesText(lines), LinesText(EntryLines(cs)));
      lines := lines + EntryLines(cs);
      AppendLines(output, TailLines);
      LinesTextAppend(lines, TailLines);
      AppendAssoc(o, LinesText(lines), LinesText(TailLines));
      lines := lines + TailLines;
      assert lines == ServiceLines(cs, knockout, ServiceHelpersModule);
    }

    /** The views module of `WriteAssembly`: in knockout mode the given text under
        `ko/views`, otherwise the written views under `views`. */
    method WriteViewsModule(ghost g: Graph, a: AssemblyNode, knockout: bool, koViews: string) returns (ok: bool)
      requires Closed(g) && CacheSound(g) && TypesInGraph(g, a.Types)
      modifies this`OutputModules, g.classes`hasReadonly, g.props`hasReadonly
      ensures CacheSound(g) && CachesKept(g)
      ensures ok == (ViewsKey(knockout) !in old(OutputModules))
      ensures OutputModules == if ok then old(OutputModules)[ViewsKey(knockout) :=
        if knockout then koViews else ViewsText(g, a.Types)] else old(OutputModules)
    {
      if knockout {
        ok := AddModule("ko/views", koViews);
      } else {
        ok := WriteViews(g, a.Types);
      }
    }

    /** The services module of `WriteAssembly`, under `ko/services` in knockout mode and
        `services` otherwise. */
    method WriteServicesModule(cs: seq<ActionsGroupNode>, knockout: bool) returns (ok: bool)
      modifies this`OutputModules
      ensures ok == (ServicesKey(knockout) !in old(OutputModules))
      ensures OutputModules == if ok then old(OutputModules)[ServicesKey(knockout) :=
        ServicesText(cs, knockout, ServiceHelpersModule)] else old(OutputModules)
    {
      var output := new StringBuilder();
      WriteServices(cs, knockout, output);
      EmptyAppend(ServicesText(cs, knockout, ServiceHelpersModule));
      ok := AddModule(if knockout then "ko/services" else "services", output.Text);
    }

    /** `WriteAssembly`: the modules of the controllers in the order of their names, then the
        views module (the knockout views module is given as text), then the services module.
        It succeeds exactly when no key is met twice; it then adds exactly these modules. */
    method WriteAssembly(ghost g: Graph, a: AssemblyNode, knockout: bool, koViews: string) returns (ok: bool)
      requires Closed(g) && CacheSound(g) && AssemblyInGraph(g, a)
      modifies this`OutputModules, g.classes`hasReadonly, g.props`hasReadonly
      ensures CacheSound(g) && CachesKept(g)
      ensures ok <==> FreshKeys(old(OutputModules), AssemblyKeys(SortedControllers(a.Controllers), knockout))
      ensures ok ==>
        OutputModules == AssemblyModules(old(OutputModules), g, a, knockout, ServiceHelpersModule, koViews, EditClasses(g))
    {
      var controllers := SortedControllers(a.Controllers);
      SortedControllersInGraph(g, a.Controllers);
      AssemblyKeysParts(controllers, knockout);
      ok := WriteControllers(g, controllers, knockout);
      if !ok {
        FreshKeysPrefix(old(OutputModules), AssemblyKeys(controllers, knockout), |controllers|);
        return;
      }
      ok := WriteAssemblyTail(g, a, controllers, knockout, koViews, old(OutputModules));
    }

    /** The rest of `WriteAssembly` once the controllers' modules are added: the views
        module, then the services module. */
    method WriteAssemblyTail(ghost g: Graph, a: AssemblyNode, controllers: seq<ActionsGroupNode>, knockout: bool,
                             koViews: string, ghost m: map<string, string>) returns (ok: bool)
      requires Closed(g) && CacheSound(g) && AssemblyInGraph(g, a) && controllers == SortedControllers(a.Controllers)
      requires forall i :: 0 <= i < |controllers| ==> ControllerInGraph(g, controllers[i])
      requires FreshKeys(m, ControllerKeys(controllers, knockout))
      requires Settled(g, ControllersClasses(g, controllers, |controllers|))
      requires OutputModules ==
        ControllerModules(m, g, controllers, |controllers|, knockout, ServiceHelpersModule, EditClasses(g))
      modifies this`OutputModules, g.classes`hasReadonly, g.props`hasReadonly
      ensures CacheSound(g) && CachesKept(g)
      ensures ok <==> FreshKeys(m, AssemblyKeys(controllers, knockout))
      ensures ok ==> OutputModules == AssemblyModules(m, g, a, knockout, ServiceHelpersModule, koViews, EditClasses(g))
    {
      ghost var keys := AssemblyKeys(controllers, knockout);
      ghost var n := |controllers|;
      AssemblyKeysParts(controllers, knockout);
      ok := WriteAssemblyViews(g, a, controllers, knockout, koViews, m);
      if !ok {
        FreshKeysPrefix(m, keys, n + 1);
        return;
      }
      AssemblyViewsKeys(m, g, controllers, knockout, ServiceHelpersModule, EditClasses(g),
                        if knockout then koViews else ViewsText(g, a.Types));
      FreshKeysNext(m, keys, n + 1, OutputModules);
      label Views:
      ok := WriteServicesModule(controllers, knockout);
      EditSame@Views(g);
    }

    /** The views module of `WriteAssembly`, after the controllers' modules. */
    method WriteAssemblyViews(ghost g: Graph, a: AssemblyNode, controllers: seq<ActionsGroupNode>, knockout: bool,
                              koViews: string, ghost m: map<string, string>) returns (ok: bool)
      requires Closed(g) && CacheSound(g) && TypesInGraph(g, a.Types)
      requires forall i :: 0 <= i < |controllers| ==> ControllerInGraph(g, controllers[i])
      requires FreshKeys(m, ControllerKeys(controllers, knockout))
      requires Settled(g, ControllersClasses(g, controllers, |controllers|))
      requires OutputModules ==
        ControllerModules(m, g, controllers, |controllers|, knockout, ServiceHelpersModule, EditClasses(g))
      modifies this`OutputModules, g.classes`hasReadonly, g.props`hasReadonly
      ensures CacheSound(g) && CachesKept(g)
      ensures ok <==> FreshKeys(m, AssemblyKeys(controllers, knockout)[..|controllers| + 1])
      ensures ok ==>
        OutputModules == ControllerModules(m, g, controllers, |controllers|, knockout, ServiceHelpersModule,
                                           EditClasses(g))[ViewsKey(knockout) := if knockout then koViews
                                                                                 else ViewsText(g, a.Types)]
    {
      ghost var keys := AssemblyKeys(controllers, knockout);
      ghost var n := |controllers|;
      AssemblyKeysParts(controllers, knockout);
      ghost var before := EditClasses(g);
      ControllerModulesKeys(m, g, controllers, n, knockout, ServiceHelpersModule, before);
      FreshKeysNext(m, keys, n, OutputModules);
      label Controllers:
      ok := WriteViewsModule(g, a, knockout, koViews);
      EditKept@Controllers(g, ControllersClasses(g, controllers, n));
      ControllerModulesAgree(m, g, controllers, n, knockout, ServiceHelpersModule, before, EditClasses(g));
    }
  }

  /** Appending the separator (but before the first text) and the next text to a join of
      texts extends the join. */
  lemma JoinAppend(o: string, sep: string, texts: seq<string>, item: string)
    ensures o + Join(sep, texts) + (if texts != [] then sep else "") + item == o + Join(sep, texts + [item])
  {
    JoinSnoc(sep, texts, item);
    if texts != [] {
      AppendAssoc(Join(sep, texts), sep, item);
      assert o + Join(sep, texts) + sep + item == o + (Join(sep, texts) + sep + item);
    } else {
      assert Join(sep, texts) == "";
    }
  }

  /** One more type at the end of a list: its text, its classes and its module uses are added. */
  lemma ListSnoc(g: Graph, parent: TypeNode, ts: seq<TypeNode>, i: nat, edition: bool,
                 allowObservable: bool, prefix: PrefixModules, edit: set<ClassNode>)
    requires i < |ts|
    requires forall j :: 0 <= j < |ts| ==> ts[j] < parent && TypeInGraph(g, ts[j])
    ensures TypeTexts(g, parent, ts[..i + 1], edition, allowObservable, prefix, edit) ==
      TypeTexts(g, parent, ts[..i], edition, allowObservable, prefix, edit) +
      [TypeText(g, ts[i], edition, allowObservable, false, prefix, edit)]
    ensures ListClasses(g, parent, ts[..i + 1]) == ListClasses(g, parent, ts[..i]) + ObjectClasses(g, ts[i])
    ensures AnyUsesViews(g, parent, ts[..i + 1], allowObservable) ==
      (AnyUsesViews(g, parent, ts[..i], allowObservable) || UsesViews(g, ts[i], allowObservable))
    ensures AnyUsesKoViews(g, parent, ts[..i + 1], allowObservable) ==
      (AnyUsesKoViews(g, parent, ts[..i], allowObservable) || UsesKoViews(g, ts[i], allowObservable))
  {
    assert ts[..i + 1][..i] == ts[..i];
  }

  /** Appending a keyword with a name, then three more texts, is appending the keyword and
      then the rest. */
  lemma Regroup(o: string, k: string, a: string, b: string, c: string, d: string)
    ensures o + (k + a) + b + c + d == o + (k + (a + b + c + d))
  {
  }

  /** Three appends are one append of their concatenation. */
  lemma Assoc3(o: string, a: string, b: string, c: string)
    ensures o + a + b + c == o + (a + b + c)
  {
  }

  /** Four appends are one append of their concatenation. */
  lemma Assoc4(o: string, a: string, b: string, c: string, d: string)
    ensures o + a + b + c + d == o + (a + b + c + d)
  {
  }

  /** Five appends are one append of their concatenation. */
  lemma Assoc5(o: string, a: string, b: string, c: string, d: string, e: string)
    ensures o + a + b + c + d + e == o + (a + b + c + d + e)
  {
  }
}
