/** The text the TypeScript writer (src/Folke.CsTsService/TypeScriptWriter.cs) emits, as
    functions of the node graph. The writer's methods append exactly these texts; the
    properties of the output are proved here, on the texts. */
module TypeScriptText {
  import opened Wrappers
  import opened Text
  import opened Nodes
  import opened StringBuilders

  /** The writer's `Tab`. */
  const Tab: string := "    "

  /** The `[Flags]` enum `PrefixModules`: whether type names get a `views.` or a
      `koViews.` module prefix. */
  datatype PrefixModules = PrefixModules(Views: bool, KoViews: bool)

  const NoPrefix := PrefixModules(false, false)
  const ViewsPrefix := PrefixModules(true, false)
  const AllPrefixes := PrefixModules(true, true)

  /** `string.IsNullOrEmpty`. */
  predicate IsNullOrEmpty(s: Option<string>) {
    s == None || s == Some("")
  }

  /** `AppendFormatDocumentation`: nothing for a null or empty documentation, otherwise a
      one-line doc comment holding the optional prefix and the documentation. */
  function DocText(documentation: Option<string>, prefix: Option<string>): string {
    if IsNullOrEmpty(documentation) then ""
    else "/** " + (if prefix.Some? then prefix.value + " " else "") + (documentation.value + " */" + NewLine)
  }

  /** The doc comment is empty exactly for a null or empty documentation; otherwise it opens
      with `/** ` and the prefix and closes the documentation with ` */` and a line end. */
  lemma DocTextShape(documentation: Option<string>, prefix: Option<string>)
    ensures IsNullOrEmpty(documentation) <==> DocText(documentation, prefix) == ""
    ensures !IsNullOrEmpty(documentation) ==>
      StartsWith(DocText(documentation, prefix), "/** " + (if prefix.Some? then prefix.value + " " else "")) &&
      EndsWith(DocText(documentation, prefix), documentation.value + " */" + NewLine)
  {
    if !IsNullOrEmpty(documentation) {
      var head := "/** " + (if prefix.Some? then prefix.value + " " else "");
      var tail := documentation.value + " */" + NewLine;
      assert (head + tail)[..|head|] == head;
      assert (head + tail)[|head|..] == tail;
    }
  }

  /** Every class a type node refers to is a class of the graph, and a union type has its
      list of alternatives (the writer dereferences both without a null check). */
  ghost predicate TypeInGraph(g: Graph, t: TypeNode)
    decreases t
  {
    ((t.Type == Object || t.Type == Enum) ==> t.Class != null && t.Class in g.classes) &&
    (t.Type == Union ==> t.Union.List?) &&
    (t.Union.List? ==> forall i :: 0 <= i < |t.Union.items| ==> TypeInGraph(g, t.Union.items[i])) &&
    (t.GenericParameters.List? ==>
       forall i :: 0 <= i < |t.GenericParameters.items| ==> TypeInGraph(g, t.GenericParameters.items[i]))
  }

  /** `WriteType`: the TypeScript text of a type. A dictionary is wrapped in
      `{ [key: string]: … }`, generic arguments follow in angle brackets, and a collection
      gets `[]` unless `notACollection`. In edition mode an Object type whose class is in
      `edit` gets the `Edit` suffix: the writer passes the classes whose `HasReadOnly`
      answered true. */
  function TypeText(g: Graph, t: TypeNode, edition: bool, allowObservable: bool,
                    notACollection: bool, prefix: PrefixModules, edit: set<ClassNode>): string
    requires TypeInGraph(g, t)
    decreases t, 2, 0
  {
    (if t.IsDictionary() then "{ [key: string]: " else "") +
    KindText(g, t, edition, allowObservable, prefix, edit) +
    GenericsText(g, t, edition, prefix, edit) +
    (if t.IsCollection() && !notACollection then "[]" else "") +
    (if t.IsDictionary() then " }" else "")
  }

  /** The generic arguments of a type, in angle brackets (never observables). */
  function GenericsText(g: Graph, t: TypeNode, edition: bool, prefix: PrefixModules,
                        edit: set<ClassNode>): string
    requires TypeInGraph(g, t)
    decreases t, 1, 1
  {
    if t.GenericParameters.List? then
      "<" + Join(", ", TypeTexts(g, t, t.GenericParameters.items, edition, false, prefix, edit)) + ">"
    else ""
  }

  /** The name under which a type refers to a class: an observable's `KoName` (empty when
      it has none) in the `koViews` module, any other class's `Name` in the `views` module,
      each prefixed by its module only when `prefix` asks for it. */
  function ClassRefText(c: ClassNode, allowObservable: bool, prefix: PrefixModules): string {
    if allowObservable && c.IsObservable
    then (if prefix.KoViews then "koViews." else "") + c.KoName.GetOr("")
    else (if prefix.Views then "views." else "") + c.Name
  }

  /** The `switch` of `WriteType` on the kind of the type. */
  function KindText(g: Graph, t: TypeNode, edition: bool, allowObservable: bool,
                    prefix: PrefixModules, edit: set<ClassNode>): string
    requires TypeInGraph(g, t)
    decreases t, 1, 0
  {
    match t.Type
    case Boolean => "boolean"
    case DateTime => if allowObservable then "Date" else "string"
    case Object =>
      ClassRefText(t.Class, allowObservable, prefix) + (if edition && t.Class in edit then "Edit" else "")
    case Decimal => "number"
    case Double => "number"
    case Float => "number"
    case Int => "number"
    case Long => "number"
    case Guid => "string"
    case String => "string"
    case TimeSpan => "string"
    case Enum => ClassRefText(t.Class, false, prefix)
    case Any => "any"
    case Union => Join(" | ", TypeTexts(g, t, t.Union.items, edition, allowObservable, prefix, edit))
    case GenericParameter => t.GenericName.GetOr("")
  }

  /** The texts of a list of types nested in `parent`, in order (never a collection). */
  function TypeTexts(g: Graph, parent: TypeNode, ts: seq<TypeNode>, edition: bool,
                     allowObservable: bool, prefix: PrefixModules, edit: set<ClassNode>): (r: seq<string>)
    requires forall i :: 0 <= i < |ts| ==> ts[i] < parent && TypeInGraph(g, ts[i])
    ensures |r| == |ts|
    decreases parent, 0, |ts|
  {
    if ts == [] then []
    else
      TypeTexts(g, parent, ts[..|ts| - 1], edition, allowObservable, prefix, edit) +
      [TypeText(g, ts[|ts| - 1], edition, allowObservable, false, prefix, edit)]
  }

  /** The classes `KindText` refers to as Object types: the type's own class, or those of
      its union alternatives. */
  ghost function KindClasses(g: Graph, t: TypeNode): set<ClassNode>
    requires TypeInGraph(g, t)
    decreases t, 1, 0
  {
    (if t.Type == Object then {t.Class} else {}) +
    (if t.Type == Union then ListClasses(g, t, t.Union.items) else {})
  }

  /** The classes a type refers to as Object types, at any depth. */
  ghost function ObjectClasses(g: Graph, t: TypeNode): set<ClassNode>
    requires TypeInGraph(g, t)
    decreases t, 2, 0
  {
    KindClasses(g, t) +
    (if t.GenericParameters.List? then ListClasses(g, t, t.GenericParameters.items) else {})
  }

  /** The classes the types of a list nested in `parent` refer to. */
  ghost function ListClasses(g: Graph, parent: TypeNode, ts: seq<TypeNode>): set<ClassNode>
    requires forall i :: 0 <= i < |ts| ==> ts[i] < parent && TypeInGraph(g, ts[i])
    decreases parent, 0, |ts|
  {
    if ts == [] then {}
    else ListClasses(g, parent, ts[..|ts| - 1]) + ObjectClasses(g, ts[|ts| - 1])
  }

  /** Writing the type makes use of the `views` module: an Object type not written as an
      observable, or an Enum, somewhere in the type. */
  ghost predicate UsesViews(g: Graph, t: TypeNode, allowObservable: bool)
    requires TypeInGraph(g, t)
    decreases t, 2
  {
    KindUsesViews(g, t, allowObservable) ||
    (t.GenericParameters.List? && AnyUsesViews(g, t, t.GenericParameters.items, false))
  }

  /** The same for the kind part of the type. */
  ghost predicate KindUsesViews(g: Graph, t: TypeNode, allowObservable: bool)
    requires TypeInGraph(g, t)
    decreases t, 1
  {
    (t.Type == Object && !(allowObservable && t.Class.IsObservable)) ||
    t.Type == Enum ||
    (t.Type == Union && AnyUsesViews(g, t, t.Union.items, allowObservable))
  }

  /** Some type of the list makes use of the `views` module. */
  ghost predicate AnyUsesViews(g: Graph, parent: TypeNode, ts: seq<TypeNode>, allowObservable: bool)
    requires forall i :: 0 <= i < |ts| ==> ts[i] < parent && TypeInGraph(g, ts[i])
    decreases parent, 0, |ts|
  {
    ts != [] &&
    (AnyUsesViews(g, parent, ts[..|ts| - 1], allowObservable) || UsesViews(g, ts[|ts| - 1], allowObservable))
  }

  /** Writing the type makes use of the `koViews` module: an Object type written as an
      observable somewhere in the type. */
  ghost predicate UsesKoViews(g: Graph, t: TypeNode, allowObservable: bool)
    requires TypeInGraph(g, t)
    decreases t, 2
  {
    KindUsesKoViews(g, t, allowObservable) ||
    (t.GenericParameters.List? && AnyUsesKoViews(g, t, t.GenericParameters.items, false))
  }

  /** The same for the kind part of the type. */
  ghost predicate KindUsesKoViews(g: Graph, t: TypeNode, allowObservable: bool)
    requires TypeInGraph(g, t)
    decreases t, 1
  {
    (t.Type == Object && allowObservable && t.Class.IsObservable) ||
    (t.Type == Union && AnyUsesKoViews(g, t, t.Union.items, allowObservable))
  }

  /** Some type of the list makes use of the `koViews` module. */
  ghost predicate AnyUsesKoViews(g: Graph, parent: TypeNode, ts: seq<TypeNode>, allowObservable: bool)
    requires forall i :: 0 <= i < |ts| ==> ts[i] < parent && TypeInGraph(g, ts[i])
    decreases parent, 0, |ts|
  {
    ts != [] &&
    (AnyUsesKoViews(g, parent, ts[..|ts| - 1], allowObservable) || UsesKoViews(g, ts[|ts| - 1], allowObservable))
  }

  /** A type's text depends on `edit` only in edition mode, and then only through the
      classes it refers to as Objects. */
  lemma {:induction false} TypeTextAgree(g: Graph, t: TypeNode, edition: bool, allowObservable: bool,
      notACollection: bool, prefix: PrefixModules, e1: set<ClassNode>, e2: set<ClassNode>)
    requires TypeInGraph(g, t)
    requires edition ==> forall c :: c in ObjectClasses(g, t) ==> (c in e1 <==> c in e2)
    ensures TypeText(g, t, edition, allowObservable, notACollection, prefix, e1) ==
            TypeText(g, t, edition, allowObservable, notACollection, prefix, e2)
    decreases t, 2
  {
    KindTextAgree(g, t, edition, allowObservable, prefix, e1, e2);
    if t.GenericParameters.List? {
      TypeTextsAgree(g, t, t.GenericParameters.items, edition, false, prefix, e1, e2);
    }
  }

  /** The same for the kind part, through the classes of `KindClasses`. */
  lemma {:induction false} KindTextAgree(g: Graph, t: TypeNode, edition: bool, allowObservable: bool,
      prefix: PrefixModules, e1: set<ClassNode>, e2: set<ClassNode>)
    requires TypeInGraph(g, t)
    requires edition ==> forall c :: c in KindClasses(g, t) ==> (c in e1 <==> c in e2)
    ensures KindText(g, t, edition, allowObservable, prefix, e1) ==
            KindText(g, t, edition, allowObservable, prefix, e2)
    decreases t, 1
  {
    if t.Type == Union {
      TypeTextsAgree(g, t, t.Union.items, edition, allowObservable, prefix, e1, e2);
    }
  }

  lemma {:induction false} TypeTextsAgree(g: Graph, parent: TypeNode, ts: seq<TypeNode>, edition: bool,
      allowObservable: bool, prefix: PrefixModules, e1: set<ClassNode>, e2: set<ClassNode>)
    requires forall i :: 0 <= i < |ts| ==> ts[i] < parent && TypeInGraph(g, ts[i])
    requires edition ==> forall c :: c in ListClasses(g, parent, ts) ==> (c in e1 <==> c in e2)
    ensures TypeTexts(g, parent, ts, edition, allowObservable, prefix, e1) ==
            TypeTexts(g, parent, ts, edition, allowObservable, prefix, e2)
    decreases parent, 0, |ts|
  {
    if ts != [] {
      TypeTextsAgree(g, parent, ts[..|ts| - 1], edition, allowObservable, prefix, e1, e2);
      TypeTextAgree(g, ts[|ts| - 1], edition, allowObservable, false, prefix, e1, e2);
    }
  }

  /** The texts of a list of types are those of its items, in order. */
  lemma {:induction false} TypeTextsItems(g: Graph, parent: TypeNode, ts: seq<TypeNode>, edition: bool,
                                          allowObservable: bool, prefix: PrefixModules, edit: set<ClassNode>)
    requires forall i :: 0 <= i < |ts| ==> ts[i] < parent && TypeInGraph(g, ts[i])
    ensures forall i :: 0 <= i < |ts| ==>
      TypeTexts(g, parent, ts, edition, allowObservable, prefix, edit)[i] ==
      TypeText(g, ts[i], edition, allowObservable, false, prefix, edit)
    decreases |ts|
  {
    if ts != [] {
      TypeTextsItems(g, parent, ts[..|ts| - 1], edition, allowObservable, prefix, edit);
    }
  }

  /** The wrapper and the suffix of `WriteType`: a dictionary's text opens with
      `{ [key: string]: ` and the kind, and closes with ` }`; any other type's text opens
      with the kind itself; a collection written as one ends with `[]`. */
  lemma TypeTextShape(g: Graph, t: TypeNode, edition: bool, allowObservable: bool,
                      notACollection: bool, prefix: PrefixModules, edit: set<ClassNode>)
    requires TypeInGraph(g, t)
    ensures var r := TypeText(g, t, edition, allowObservable, notACollection, prefix, edit);
      var kind := KindText(g, t, edition, allowObservable, prefix, edit);
      && (t.IsDictionary() ==> StartsWith(r, "{ [key: string]: " + kind) && EndsWith(r, " }"))
      && (!t.IsDictionary() ==> StartsWith(r, kind))
      && (t.IsCollection() && !notACollection ==> EndsWith(r, "[]"))
  {
    var kind := KindText(g, t, edition, allowObservable, prefix, edit);
    var generics := GenericsText(g, t, edition, prefix, edit);
    var open := if t.IsDictionary() then "{ [key: string]: " else "";
    var collection := if t.IsCollection() && !notACollection then "[]" else "";
    var close := if t.IsDictionary() then " }" else "";
    assert TypeText(g, t, edition, allowObservable, notACollection, prefix, edit) ==
      open + kind + generics + collection + close;
    ConcatShape(open, kind, generics, collection, close);
  }

  /** The ends of a text made of five parts. */
  lemma ConcatShape(a: string, b: string, c: string, d: string, e: string)
    ensures StartsWith(a + b + c + d + e, a + b)
    ensures EndsWith(a + b + c + d + e, e)
    ensures a == [] ==> StartsWith(a + b + c + d + e, b)
    ensures e == [] ==> EndsWith(a + b + c + d + e, d)
  {
    var s := a + b + c + d + e;
    assert s == (a + b) + (c + d + e);
    assert s == (a + b + c + d) + e;
    if a == [] {
      assert s == b + (c + d + e);
    }
    if e == [] {
      assert s == (a + b + c) + d;
    }
  }

  /** The fixed names of `WriteType`'s kinds: numbers, strings, booleans, `any`, and
      `DateTime` as `Date` only where observables are allowed. */
  lemma PrimitiveNames(g: Graph, t: TypeNode, edition: bool, allowObservable: bool,
                       prefix: PrefixModules, edit: set<ClassNode>)
    requires TypeInGraph(g, t)
    ensures var k := KindText(g, t, edition, allowObservable, prefix, edit);
      && (t.Type in {Decimal, Double, Float, Int, Long} ==> k == "number")
      && (t.Type in {Guid, String, TimeSpan} ==> k == "string")
      && (t.Type == DateTime ==> (k == "Date" <==> allowObservable) && (k == "string" <==> !allowObservable))
      && (t.Type == Boolean ==> k == "boolean")
      && (t.Type == Any ==> k == "any")
  {
  }

  /** A union's alternatives are written in order, joined by ` | `: the text opens with the
      first alternative, closes with the last, and holds exactly one separator between two
      neighbours. */
  lemma UnionTextShape(g: Graph, t: TypeNode, edition: bool, allowObservable: bool,
                       prefix: PrefixModules, edit: set<ClassNode>)
    requires TypeInGraph(g, t) && t.Type == Union && |t.Union.items| > 0
    ensures var k := KindText(g, t, edition, allowObservable, prefix, edit);
      var texts := TypeTexts(g, t, t.Union.items, edition, allowObservable, prefix, edit);
      var n := |t.Union.items|;
      && |texts| == n
      && StartsWith(k, TypeText(g, t.Union.items[0], edition, allowObservable, false, prefix, edit))
      && EndsWith(k, TypeText(g, t.Union.items[n - 1], edition, allowObservable, false, prefix, edit))
      && |k| == SumLengths(texts) + (n - 1) * 3
  {
    var texts := TypeTexts(g, t, t.Union.items, edition, allowObservable, prefix, edit);
    TypeTextsItems(g, t, t.Union.items, edition, allowObservable, prefix, edit);
    JoinEnds(" | ", texts);
    JoinLength(" | ", texts);
  }

  /** The kinds that name no class to ask `HasReadOnly` of and no nested type are written
      the same whatever the edition mode and the edit set. */
  lemma SimpleKindText(g: Graph, t: TypeNode, edition: bool, allowObservable: bool, prefix: PrefixModules,
                       edit: set<ClassNode>)
    requires TypeInGraph(g, t) && t.Type != Object && t.Type != Union
    ensures KindText(g, t, edition, allowObservable, prefix, edit) == KindText(g, t, false, allowObservable, prefix, {})
  {
  }

  /** Generic arguments are written in order between `<` and `>`: the text opens with `<`
      and the first argument, and closes with the last argument and `>`. */
  lemma GenericsTextShape(g: Graph, t: TypeNode, edition: bool, prefix: PrefixModules,
                          edit: set<ClassNode>)
    requires TypeInGraph(g, t) && t.GenericParameters.List? && |t.GenericParameters.items| > 0
    ensures var r := GenericsText(g, t, edition, prefix, edit);
      var items := t.GenericParameters.items;
      && StartsWith(r, "<" + TypeText(g, items[0], edition, false, false, prefix, edit))
      && EndsWith(r, TypeText(g, items[|items| - 1], edition, false, false, prefix, edit) + ">")
  {
    var items := t.GenericParameters.items;
    var texts := TypeTexts(g, t, items, edition, false, prefix, edit);
    TypeTextsItems(g, t, items, edition, false, prefix, edit);
    JoinEnds(", ", texts);
    assert GenericsText(g, t, edition, prefix, edit) == "<" + Join(", ", texts) + ">";
    Bracketed(Join(", ", texts), texts[0], texts[|texts| - 1]);
  }

  /** Text between `<` and `>` opens and closes as the text inside does. */
  lemma Bracketed(j: string, first: string, last: string)
    requires StartsWith(j, first) && EndsWith(j, last)
    ensures StartsWith("<" + j + ">", "<" + first)
    ensures EndsWith("<" + j + ">", last + ">")
  {
    var s := "<" + j + ">";
    assert s[..1 + |first|] == "<" + j[..|first|];
    assert s[|s| - |last + ">"|..] == j[|j| - |last|..] + ">";
  }

  /** The generic parameters of a class declaration: their names in angle brackets,
      separated by ", "; nothing for a class without generic parameters. */
  function GenericParametersText(parameters: Option<seq<string>>): string {
    if parameters.Some? then "<" + Join(", ", parameters.value) + ">" else ""
  }

  /** `WriteClassName`: the class's `KoName` (nothing when it has none) in knockout mode,
      its `Name` otherwise, followed by its generic parameters. */
  function ClassNameText(c: ClassNode, knockout: bool): string {
    (if knockout then c.KoName.GetOr("") else c.Name) + GenericParametersText(c.GenericParameters)
  }

  /** A class name starts with the chosen name; the generic parameters follow in angle
      brackets exactly when the class has some. */
  lemma ClassNameShape(c: ClassNode, knockout: bool)
    ensures var name := if knockout then c.KoName.GetOr("") else c.Name;
      var r := ClassNameText(c, knockout);
      StartsWith(r, name) &&
      (c.GenericParameters.None? <==> |r| == |name|) &&
      (c.GenericParameters.Some? ==> r[|name|] == '<' && r[|r| - 1] == '>')
  {
    var name := if knockout then c.KoName.GetOr("") else c.Name;
    var generics := GenericParametersText(c.GenericParameters);
    assert (name + generics)[..|name|] == name;
    if c.GenericParameters.Some? {
      assert (name + generics)[|name|] == generics[0] == '<';
    }
  }

  /** What `WriteProperty` writes before the type: the doc comment, the indented name, `?`
      for a property that is not required, and `: `. */
  function PropertyHeadText(p: PropertyNode): string {
    DocText(p.Documentation, None) + Tab + p.Name + (if p.IsRequired then "" else "?") + ": "
  }

  /** `WriteProperty`: one line of an interface, its type written without observables. */
  function PropertyText(g: Graph, p: PropertyNode, edition: bool, prefix: PrefixModules,
                        edit: set<ClassNode>): string
    requires TypeInGraph(g, p.Type)
  {
    PropertyHeadText(p) + TypeText(g, p.Type, edition, false, false, prefix, edit) + ";" + NewLine
  }

  /** After the doc comment, the indent and the name, a property's line has `?` exactly
      when the property is not required (a name never ends the line: `:` follows). */
  lemma OptionalMarker(g: Graph, p: PropertyNode, edition: bool, prefix: PrefixModules,
                       edit: set<ClassNode>)
    requires TypeInGraph(g, p.Type)
    ensures var k := |DocText(p.Documentation, None)| + |Tab| + |p.Name|;
      k < |PropertyText(g, p, edition, prefix, edit)| &&
      (PropertyText(g, p, edition, prefix, edit)[k] == '?' <==> !p.IsRequired)
  {
    var name := DocText(p.Documentation, None) + Tab + p.Name;
    var marker := if p.IsRequired then "" else "?";
    var rest := ": " + TypeText(g, p.Type, edition, false, false, prefix, edit) + ";" + NewLine;
    assert PropertyText(g, p, edition, prefix, edit) == name + (marker + rest);
    assert (name + (marker + rest))[|name|] == (marker + rest)[0];
  }

  /** The properties `WriteTypeDefinition` writes, in order: all of them, but in edition
      mode only those that are not read-only. */
  function WrittenProperties(props: seq<PropertyNode>, edition: bool): seq<PropertyNode>
    decreases |props|
  {
    if props == [] then []
    else
      var last := props[|props| - 1];
      WrittenProperties(props[..|props| - 1], edition) + (if !last.IsReadOnly || !edition then [last] else [])
  }

  /** Out of edition mode every property is written; in edition mode exactly those that are
      not read-only, in their order. */
  lemma {:induction false} WrittenPropertiesSpec(props: seq<PropertyNode>, edition: bool)
    ensures var r := WrittenProperties(props, edition);
      (!edition ==> r == props) &&
      (forall i :: 0 <= i < |r| ==> r[i] in props && (!edition || !r[i].IsReadOnly)) &&
      (forall i :: 0 <= i < |props| && (!edition || !props[i].IsReadOnly) ==> props[i] in r)
    decreases |props|
  {
    if props != [] {
      var init := props[..|props| - 1];
      WrittenPropertiesSpec(init, edition);
      assert props == init + [props[|props| - 1]];
    }
  }

  /** Every property's type is one the writer can follow. */
  ghost predicate PropertiesInGraph(g: Graph, props: seq<PropertyNode>) {
    forall i :: 0 <= i < |props| ==> TypeInGraph(g, props[i].Type)
  }

  /** The lines of a list of properties, in order. */
  function PropertyTexts(g: Graph, props: seq<PropertyNode>, edition: bool, prefix: PrefixModules,
                         edit: set<ClassNode>): (r: seq<string>)
    requires PropertiesInGraph(g, props)
    ensures |r| == |props|
    decreases |props|
  {
    if props == [] then []
    else
      PropertyTexts(g, props[..|props| - 1], edition, prefix, edit) +
      [PropertyText(g, props[|props| - 1], edition, prefix, edit)]
  }

  /** The classes the types of a list of properties refer to as Object types. */
  ghost function PropertiesClasses(g: Graph, props: seq<PropertyNode>): set<ClassNode>
    requires PropertiesInGraph(g, props)
    decreases |props|
  {
    if props == [] then {}
    else PropertiesClasses(g, props[..|props| - 1]) + ObjectClasses(g, props[|props| - 1].Type)
  }

  /** Some property's type makes use of the `views` module. */
  ghost predicate PropertiesUseViews(g: Graph, props: seq<PropertyNode>)
    requires PropertiesInGraph(g, props)
    decreases |props|
  {
    props != [] &&
    (PropertiesUseViews(g, props[..|props| - 1]) || UsesViews(g, props[|props| - 1].Type, false))
  }

  /** Some property's type makes use of the `koViews` module. */
  ghost predicate PropertiesUseKoViews(g: Graph, props: seq<PropertyNode>)
    requires PropertiesInGraph(g, props)
    decreases |props|
  {
    props != [] &&
    (PropertiesUseKoViews(g, props[..|props| - 1]) || UsesKoViews(g, props[|props| - 1].Type, false))
  }

  /** The lines of the properties depend on `edit` only through their classes. */
  lemma {:induction false} PropertyTextsAgree(g: Graph, props: seq<PropertyNode>, edition: bool,
      prefix: PrefixModules, e1: set<ClassNode>, e2: set<ClassNode>)
    requires PropertiesInGraph(g, props)
    requires edition ==> forall c :: c in PropertiesClasses(g, props) ==> (c in e1 <==> c in e2)
    ensures PropertyTexts(g, props, edition, prefix, e1) == PropertyTexts(g, props, edition, prefix, e2)
    decreases |props|
  {
    if props != [] {
      var p := props[|props| - 1];
      PropertyTextsAgree(g, props[..|props| - 1], edition, prefix, e1, e2);
      TypeTextAgree(g, p.Type, edition, false, false, prefix, e1, e2);
    }
  }

  /** One more property at the end of the list adds its line, its classes and its module
      uses. */
  lemma PropertiesSnoc(g: Graph, props: seq<PropertyNode>, p: PropertyNode, edition: bool,
                       prefix: PrefixModules, edit: set<ClassNode>)
    requires PropertiesInGraph(g, props) && TypeInGraph(g, p.Type)
    ensures PropertiesInGraph(g, props + [p])
    ensures PropertyTexts(g, props + [p], edition, prefix, edit) ==
      PropertyTexts(g, props, edition, prefix, edit) + [PropertyText(g, p, edition, prefix, edit)]
    ensures PropertiesClasses(g, props + [p]) == PropertiesClasses(g, props) + ObjectClasses(g, p.Type)
    ensures PropertiesUseViews(g, props + [p]) == (PropertiesUseViews(g, props) || UsesViews(g, p.Type, false))
    ensures PropertiesUseKoViews(g, props + [p]) ==
      (PropertiesUseKoViews(g, props) || UsesKoViews(g, p.Type, false))
  {
    assert (props + [p])[..|props|] == props;
  }

  /** The written properties of one more property. */
  lemma WrittenSnoc(props: seq<PropertyNode>, i: nat, edition: bool)
    requires i < |props|
    ensures !props[i].IsReadOnly || !edition ==>
      WrittenProperties(props[..i + 1], edition) == WrittenProperties(props[..i], edition) + [props[i]]
    ensures props[i].IsReadOnly && edition ==>
      WrittenProperties(props[..i + 1], edition) == WrittenProperties(props[..i], edition)
  {
    assert props[..i + 1][..i] == props[..i];
    assert WrittenProperties(props[..i], edition) + [] == WrittenProperties(props[..i], edition);
  }

  /** The separator between two enum values: a comma and an empty line. */
  const EnumSeparator: string := "," + NewLine + NewLine

  /** One value of a const enum: its doc comment when it has a non-empty documentation, then
      the indented `Name = Value`. */
  function EnumValueText(v: EnumValueNode): string {
    (if v.Documentation.Some? && |v.Documentation.value| > 0
     then Tab + "/** " + v.Documentation.value + " */" + NewLine else "") +
    (Tab + v.Name + " = " + IntToString(v.Value))
  }

  /** A value's text opens with its doc comment exactly when it has a non-empty
      documentation, and ends with ` = ` and the value in decimal. */
  lemma EnumValueShape(v: EnumValueNode)
    ensures v.Documentation.Some? && |v.Documentation.value| > 0 ==>
      StartsWith(EnumValueText(v), Tab + "/** " + v.Documentation.value + " */" + NewLine)
    ensures !(v.Documentation.Some? && |v.Documentation.value| > 0) ==> StartsWith(EnumValueText(v), Tab + v.Name + " = ")
    ensures EndsWith(EnumValueText(v), " = " + IntToString(v.Value))
  {
    var doc := if v.Documentation.Some? && |v.Documentation.value| > 0
      then Tab + "/** " + v.Documentation.value + " */" + NewLine else "";
    var name := Tab + v.Name;
    var value := " = " + IntToString(v.Value);
    assert EnumValueText(v) == doc + (name + value);
    assert (doc + (name + value))[..|doc|] == doc;
    assert (doc + (name + value))[|doc + name|..] == value;
    assert doc == "" ==> (name + value)[..|name + " = "|] == name + " = ";
  }

  /** The values of a const enum, in order. */
  function EnumValueTexts(values: seq<EnumValueNode>): (r: seq<string>)
    decreases |values|
  {
    if values == [] then []
    else EnumValueTexts(values[..|values| - 1]) + [EnumValueText(values[|values| - 1])]
  }

  /** A class the writer can declare: an interface's property types are in the graph, and
      a class without properties has its enum values. */
  ghost predicate DefinitionInGraph(g: Graph, c: ClassNode) {
    (c.Properties.Some? ==> PropertiesInGraph(g, c.Properties.value)) &&
    (c.Properties.None? ==> c.Values.Some?)
  }

  /** The name a definition declares: `Edit` appended in edition mode. */
  function DefinitionName(c: ClassNode, edition: bool): string {
    c.Name + (if edition then "Edit" else "")
  }

  const InterfaceKeyword: string := "export interface "
  const EnumKeyword: string := "export const enum "

  /** The first line of an interface: the keyword, the name, the generic parameters and the
      opening brace. */
  function InterfaceHeader(c: ClassNode, edition: bool): string {
    InterfaceKeyword + (DefinitionName(c, edition) + GenericParametersText(c.GenericParameters) + " {" + NewLine)
  }

  /** The first line of a const enum: the keyword, the name and the opening brace. */
  function EnumHeader(c: ClassNode, edition: bool): string {
    EnumKeyword + (DefinitionName(c, edition) + " {" + NewLine)
  }

  /** The declaration of `WriteTypeDefinition`, after its empty line and doc comment: an
      interface with the written properties separated by empty lines, or a const enum with
      the values separated by `EnumSeparator`, followed by the end of the last line. */
  function DeclarationText(g: Graph, c: ClassNode, edition: bool, prefix: PrefixModules,
                           edit: set<ClassNode>): string
    requires DefinitionInGraph(g, c)
  {
    if c.Properties.Some? then
      WrittenInGraph(g, c.Properties.value, edition);
      InterfaceHeader(c, edition) +
      Join(NewLine, PropertyTexts(g, WrittenProperties(c.Properties.value, edition), edition, prefix, edit))
    else
      EnumHeader(c, edition) + Join(EnumSeparator, EnumValueTexts(c.Values.value)) + NewLine
  }

  /** `WriteTypeDefinition`: an empty line, the class's doc comment, the declaration and
      its closing brace. */
  function TypeDefinitionText(g: Graph, c: ClassNode, edition: bool, prefix: PrefixModules,
                              edit: set<ClassNode>): string
    requires DefinitionInGraph(g, c)
  {
    NewLine + DocText(c.Documentation, None) + DeclarationText(g, c, edition, prefix, edit) + "}" + NewLine
  }

  /** The two keywords differ at their eighth character, so a text starts with at most one. */
  lemma KeywordsExclusive(rest: string)
    ensures StartsWith(InterfaceKeyword + rest, InterfaceKeyword)
    ensures !StartsWith(InterfaceKeyword + rest, EnumKeyword)
    ensures StartsWith(EnumKeyword + rest, EnumKeyword)
    ensures !StartsWith(EnumKeyword + rest, InterfaceKeyword)
  {
    assert (InterfaceKeyword + rest)[..|InterfaceKeyword|] == InterfaceKeyword;
    assert (EnumKeyword + rest)[..|EnumKeyword|] == EnumKeyword;
    assert (InterfaceKeyword + rest)[7] == 'i' && EnumKeyword[7] == 'c';
    assert (EnumKeyword + rest)[7] == 'c' && InterfaceKeyword[7] == 'i';
  }

  /** A class is declared as an interface exactly when it has properties; otherwise it is
      a const enum. */
  lemma InterfaceOrEnum(g: Graph, c: ClassNode, edition: bool, prefix: PrefixModules, edit: set<ClassNode>)
    requires DefinitionInGraph(g, c)
    ensures var d := DeclarationText(g, c, edition, prefix, edit);
      (StartsWith(d, InterfaceKeyword) <==> c.Properties.Some?) &&
      (StartsWith(d, EnumKeyword) <==> c.Properties.None?)
  {
    var d := DeclarationText(g, c, edition, prefix, edit);
    if c.Properties.Some? {
      var h := InterfaceHeader(c, edition);
      assert h[..|InterfaceKeyword|] == InterfaceKeyword;
      assert d[..|InterfaceKeyword|] == h[..|InterfaceKeyword|];
      KeywordsExclusive(d[|InterfaceKeyword|..]);
      assert d == InterfaceKeyword + d[|InterfaceKeyword|..];
    } else {
      var h := EnumHeader(c, edition);
      assert h[..|EnumKeyword|] == EnumKeyword;
      assert d[..|EnumKeyword|] == h[..|EnumKeyword|];
      KeywordsExclusive(d[|EnumKeyword|..]);
      assert d == EnumKeyword + d[|EnumKeyword|..];
    }
  }

  /** The written properties of properties the writer can follow are ones it can follow. */
  lemma {:induction false} WrittenInGraph(g: Graph, props: seq<PropertyNode>, edition: bool)
    requires PropertiesInGraph(g, props)
    ensures PropertiesInGraph(g, WrittenProperties(props, edition))
    decreases |props|
  {
    if props != [] {
      WrittenInGraph(g, props[..|props| - 1], edition);
    }
  }

  /** The classes a definition's written properties refer to as Object types. */
  ghost function DefinitionClasses(g: Graph, c: ClassNode, edition: bool): set<ClassNode>
    requires DefinitionInGraph(g, c)
  {
    if c.Properties.Some? then
      WrittenInGraph(g, c.Properties.value, edition);
      PropertiesClasses(g, WrittenProperties(c.Properties.value, edition))
    else {}
  }

  /** The written properties of a definition make use of the `views` module. */
  ghost predicate DefinitionUsesViews(g: Graph, c: ClassNode, edition: bool)
    requires DefinitionInGraph(g, c)
  {
    if c.Properties.Some? then
      WrittenInGraph(g, c.Properties.value, edition);
      PropertiesUseViews(g, WrittenProperties(c.Properties.value, edition))
    else false
  }

  /** The written properties of a definition make use of the `koViews` module. */
  ghost predicate DefinitionUsesKoViews(g: Graph, c: ClassNode, edition: bool)
    requires DefinitionInGraph(g, c)
  {
    if c.Properties.Some? then
      WrittenInGraph(g, c.Properties.value, edition);
      PropertiesUseKoViews(g, WrittenProperties(c.Properties.value, edition))
    else false
  }

  /** A definition's text depends on `edit` only in edition mode, through its classes. */
  lemma DefinitionTextAgree(g: Graph, c: ClassNode, edition: bool, prefix: PrefixModules,
                            e1: set<ClassNode>, e2: set<ClassNode>)
    requires DefinitionInGraph(g, c)
    requires edition ==> forall d :: d in DefinitionClasses(g, c, edition) ==> (d in e1 <==> d in e2)
    ensures TypeDefinitionText(g, c, edition, prefix, e1) == TypeDefinitionText(g, c, edition, prefix, e2)
  {
    if c.Properties.Some? {
      WrittenInGraph(g, c.Properties.value, edition);
      PropertyTextsAgree(g, WrittenProperties(c.Properties.value, edition), edition, prefix, e1, e2);
    }
  }
}
