# Folke.CsTsService in Dafny

Folke.CsTsService reads the controllers of an ASP.NET application through reflection and
writes a TypeScript client for them. The client has one `views` module with the interfaces
and enums of the transferred types, one module per controller with a function per action,
and a `services` module that gathers the controllers. This project models the core of the
generator and proves properties of the model:

- **The node graph** (`Nodes.dfy`). `ClassNode` and `PropertyNode` are classes. Their
  `IsReadOnly`, `hasObservable` and `hasReadonly` fields change in place. `TypeNode` and the
  API nodes (`ActionNode`, `ParameterNode`, `ActionsGroupNode`, `AssemblyNode`) are values.
  `SetWritable` clears `IsReadOnly` over the classes reachable through Object-typed
  properties. `HasReadOnly` is the memoised mutual recursion between classes and
  properties. It is proved sound: a cached `true` always comes from a reachable read-only
  property.
- **Reflection as values** (`Reflection.dfy`). Types, methods, parameters, properties and
  attributes are descriptors. `TypeExtensions` and `ReflectionHelpers` are functions over
  them.
- **The two annotation dialects** (`WaAdapter.dfy`, `MvcAdapter.dfy`) and the choice
  between them (`ApiAdapter.dfy`). These cover ASP.NET Web API and ASP.NET Core MVC.
- **The XML documentation index** (`Documentation.dfy`). It holds member elements by name
  and the identifiers under which methods, types, properties and enum values are looked up.
- **`Optional<T>`** (`Optional.dfy`), a value type with an `IsSet` flag.
- **`StringHelpers`** (`StringHelpers.dfy`): camel and Pascal casing.
- **The legacy converter** (`Converter.dfy`, `ConverterRules.dfy`). Its naming and routing
  rules are functions. The `Converter` class has the enum set and the ordered view registry
  that `Write` fills from a worklist. Each step of the registry is proved against a pure
  specification (`Register`, `RegisterAll`). The worklist is proved to terminate.
- **`TypeScriptWriter`** (`Writer.dfy`). Every writing method appends to a `StringBuilder`
  and is proved to append exactly the text of a specification function:
  - `TypeScriptText.dfy` has the functions for types, interfaces and enums;
  - `ControllerText.dfy` has the functions for actions, controllers and the assembly;
  - `KoValidation.dfy` has the functions for the knockout validators.

  Those functions carry the properties of the output. Examples:
  - overloaded actions get distinct method names;
  - a route with path parameters becomes a template string with no `?` left;
  - the modules of an assembly are keyed as `Dictionary.Add` demands, and writing fails
    exactly when two keys clash;
  - controllers and actions are sorted stably by name.

`Text.dfy`, `StringBuilders.dfy`, `Wrappers.dfy`, `Ordering.dfy` and `Dictionaries.dfy` hold
the pieces of the .NET library that the generator uses:
- `string.Join`, `Replace`, `ToString`, ASCII casing;
- `StringBuilder`;
- null and exceptions, as `Option` and `Result`;
- `OrderBy`, as a stable insertion sort;
- dictionaries filled in a loop.

## Model

| member | source | states |
|---|---|---|
| StringHelpers.ToCamelCase | src/Folke.CsTsService/StringHelpers.cs:7-12 | The result has the identifier's length. Its first character is the lower-cased first character, and the rest is unchanged. An empty identifier comes back as it is. |
| StringHelpers.ToPascalCase | src/Folke.CsTsService/StringHelpers.cs:14-19 | The same as ToCamelCase, with the first character upper-cased. |
| StringHelpers.CasingLaws | src/Folke.CsTsService/StringHelpers.cs:7-19 | Both conversions are idempotent. Camel-casing a Pascal-cased identifier gives its camel-cased form, and the other way round. |
| StringHelpers.CamelCaseCollisions | src/Folke.CsTsService/StringHelpers.cs:7-12 | Two identifiers with the same camel-cased form have the same length. They differ at most in the case of their first letter. |
| Reflection.Ancestors | src/Folke.CsTsService/TypeExtensions.cs:10-14 | The base chain of a type is empty exactly when the type has no base type. Otherwise it starts with the base type. |
| Reflection.HasBaseTypeSpec | src/Folke.CsTsService/TypeExtensions.cs:10-14 | `HasBaseType` holds exactly when some strict ancestor has the name. The type's own name never counts. |
| Reflection.FirstAttribute | src/Folke.CsTsService/TypeExtensions.cs:36-39 | The result is null exactly when no attribute has the name. Otherwise it is an attribute with that name, and no earlier attribute has the name. |
| Reflection.FirstAttributeAt | src/Folke.CsTsService/TypeExtensions.cs:36-39 | Some attribute has the name exactly when there is a first position holding it. The attribute found is the one at that position. |
| Reflection.GetAttributeString | src/Folke.CsTsService/TypeExtensions.cs:36-50 | The result is null when no attribute has the name. Otherwise it is the string property of the first attribute of that name, or null when that attribute does not set it. |
| Reflection.GetAttributeBool | src/Folke.CsTsService/TypeExtensions.cs:36-50 | The result is false when no attribute has the name. Otherwise it is the bool property of the first attribute of that name, or false when that attribute does not set it. |
| Reflection.FirstAttributeOnly | src/Folke.CsTsService/TypeExtensions.cs:36-42 | Once an attribute of the name is present, attributes added after it change neither the attribute found nor the string or bool property read. |
| Reflection.AttributesNamed | src/Folke.CsTsService/TypeExtensions.cs:52-58 | Every attribute kept has the name. None are kept exactly when none have the name. |
| Reflection.AttributesNamedSplit | src/Folke.CsTsService/TypeExtensions.cs:52-58 | Filtering a concatenation gives the concatenation of the filtered parts, so the order of the attributes is kept. |
| Reflection.AttributesNamedOne | src/Folke.CsTsService/TypeExtensions.cs:52-58 | A single attribute is kept exactly when it has the name. |
| Reflection.TypesOf | src/Folke.CsTsService/TypeExtensions.cs:52-58 | Reading succeeds exactly when every attribute has the property. It then gives each attribute's value, position by position. |
| Reflection.GetAttributeTypes | src/Folke.CsTsService/TypeExtensions.cs:52-58 | The same as TypesOf, over the attributes with the given name, in order. A missing property is a null dereference. |
| Reflection.GetProperty | src/Folke.CsTsService/TypeExtensions.cs:31-34 | The result is null exactly when no declared property has the name. Otherwise it is the first property with that name. |
| Reflection.IsDictionaryOneLevel | src/Folke.CsTsService/ReflectionHelpers.cs:15-22 | An interface is a dictionary exactly when it is a constructed `IDictionary<,>`. A class is one exactly when one of its own interfaces is such an interface. |
| Optionals.Optional.Get | src/Folke.CsTsService/Optional/Optional.cs:22-29 | The getter succeeds exactly when the value is set, and then gives the stored value. Otherwise it throws "Value is not set". |
| Optionals.Optional.Set | src/Folke.CsTsService/Optional/Optional.cs:30-34 | After the setter the optional is set, and the getter gives the new value. |
| Optionals.Optional.GetValueOrDefault | src/Folke.CsTsService/Optional/Optional.cs:46-54 | An undefined optional gives null. A set one gives what the getter gives. |
| Optionals.Optional.GetValueOrDefaultOr | src/Folke.CsTsService/Optional/Optional.cs:56-61 | An undefined optional gives the default argument. A set one gives what the getter gives. |
| Optionals.Optional.Equals | src/Folke.CsTsService/Optional/Optional.cs:63-68 | An undefined optional equals exactly null. A set optional equals exactly a non-null object equal to its value, which must itself be non-null. |
| Optionals.Optional.HashCode | src/Folke.CsTsService/Optional/Optional.cs:87-91 | The hash code is -1 for an undefined optional or a null value. Otherwise it is the value's own hash code. |
| Optionals.Optional.ToString | src/Folke.CsTsService/Optional/Optional.cs:93-96 | The text is "undefined", "null", or the value's own text. |
| Optionals.Undefined | src/Folke.CsTsService/Optional/Optional.cs:14 | `Undefined` is not set, holds null, and the getter throws on it. |
| Optionals.New | src/Folke.CsTsService/Optional/Optional.cs:16-20 | A constructed optional is set and gives back its value. |
| Optionals.Eq | src/Folke.CsTsService/Optional/Optional.cs:70-80 | Two undefined optionals are equal. An undefined and a set one are not. Two set ones are equal when their values are. |
| Optionals.NotEq | src/Folke.CsTsService/Optional/Optional.cs:82-85 | `!=` is the negation of `==`. |
| Optionals.EqualsAgainstEq | src/Folke.CsTsService/Optional/Optional.cs:63-80 | `Equals` against a non-null object agrees with `==` against the optional set to that object. Against null it holds exactly for an undefined optional, so a set optional holding null does not equal null, though `==` makes two such optionals equal. |
| Optionals.EqIsEquivalence | src/Folke.CsTsService/Optional/Optional.cs:70-80 | `==` is reflexive, symmetric and transitive. |
| Optionals.EqIsIdentity | src/Folke.CsTsService/Optional/Optional.cs:70-80 | On the values the struct can produce, `==` is exactly equality. |
| Optionals.EqualHashCodes | src/Folke.CsTsService/Optional/Optional.cs:70-91 | Optionals that are `==` have equal hash codes. |
| Optionals.SetThenRead | src/Folke.CsTsService/Optional/Optional.cs:22-61 | After a set, the getter, the conversion to `T` and both `GetValueOrDefault` overloads give the value that was set. |
| Nodes.TypeNode.IsCollection | src/Folke.CsTsService/Nodes/TypeNode.cs:19 | A type is a collection exactly when its only modifier is `Array`. |
| Nodes.TypeNode.IsDictionary | src/Folke.CsTsService/Nodes/TypeNode.cs:20 | A type is a dictionary exactly when its only modifier is `Dictionary`. |
| Nodes.NewTypeNode | src/Folke.CsTsService/Nodes/TypeNode.cs:5-21 | A new type node has the given kind, class and observability. It has no modifiers, so it is neither a collection nor a dictionary. |
| Nodes.ModifierKinds | src/Folke.CsTsService/Nodes/TypeNode.cs:19-20 | No type is both a collection and a dictionary. A type with no modifier, or with several, is neither. |
| Nodes.ClassNode.constructor | src/Folke.CsTsService/Nodes/ClassNode.cs:6-18 | A new class node holds the given members. It is read-only, and both caches are empty. |
| Nodes.ClassNode.SetWritable | src/Folke.CsTsService/Nodes/ClassNode.cs:47-60 | The class becomes writable. Classes that were writable stay writable. Every class the call makes writable is reachable from this class. Writable classes outside the pending calls point only to writable classes. |
| Nodes.ClassNode.SetPropertyClassesWritable | src/Folke.CsTsService/Nodes/ClassNode.cs:52-59 | After the loop, the class of every Object-typed property is writable. The same frame and reachability facts as SetWritable hold. |
| Nodes.ClassNode.HasReadOnly | src/Folke.CsTsService/Nodes/ClassNode.cs:38-45 | The answer is cached, and a cached answer is returned unchanged. A `true` means some reachable class has a read-only property. A read-only property of the class itself forces `true`. Every cache keeps what it held. |
| Nodes.ClassNode.AnyPropertyHasReadOnly | src/Folke.CsTsService/Nodes/ClassNode.cs:42 | `true` means the class reaches a read-only property. `false` means none of its own properties is read-only. |
| Nodes.ClassNode.GetHasObservable | src/Folke.CsTsService/Nodes/ClassNode.cs:24-29 | A cached or set value is returned unchanged. Otherwise the value is computed from `IsReadOnly` and the properties' observability, and then cached. |
| Nodes.ClassNode.SetHasObservable | src/Folke.CsTsService/Nodes/ClassNode.cs:30-33 | The setter overrides the cache. |
| Nodes.PropertyNode.constructor | src/Folke.CsTsService/Nodes/PropertyNode.cs:5-17 | A new property node holds the given members, and its cache is empty. |
| Nodes.PropertyNode.NeedValidation | src/Folke.CsTsService/Nodes/PropertyNode.cs:19-23 | A non-observable property never needs validation. An observable one needs it exactly when it has some constraint. |
| Nodes.PropertyNode.HasReadOnly | src/Folke.CsTsService/Nodes/PropertyNode.cs:25-35 | A read-only property answers `true` and leaves its cache alone. Any other property caches its answer, and a cached answer is returned unchanged. A `true` means a read-only property is reachable. A property that is not Object-typed answers `false`. |
| Nodes.WritableReachable | src/Folke.CsTsService/Nodes/ClassNode.cs:47-60 | Once `SetWritable` has returned to the top, every class reachable from a writable class is writable. |
| Nodes.WritableReachableIn | src/Folke.CsTsService/Nodes/ClassNode.cs:47-60 | The same as WritableReachable, for paths of a given length. |
| Nodes.PropertyLiftsToClass | src/Folke.CsTsService/Nodes/ClassNode.cs:42 | A property that reaches a read-only property makes its class reach one. |
| Documentation.IndexSpec | src/Folke.CsTsService/Documentation.cs:19-25 | A name is indexed exactly when some member element carries it. It then maps to the last such element. |
| Documentation.ParseDocumentation | src/Folke.CsTsService/Documentation.cs:94-97 | Null stays null. An element gives its text. |
| Documentation.DocTypeNameHasNoArity | src/Folke.CsTsService/Documentation.cs:59-70 | A documentation type name has no backtick arity mark, provided the names it is built from have none. |
| Documentation.DottedName | src/Folke.CsTsService/Documentation.cs:82 | A missing full name is a null dereference. Otherwise the result has the same length, has no `+`, and keeps every other character. |
| Documentation.KeyKindsDiffer | src/Folke.CsTsService/Documentation.cs:47-92 | Method, type, property and enum-value identifiers never collide, because they start with different letters. |
| Documentation.NestedTypeKeys | src/Folke.CsTsService/Documentation.cs:72-92 | A nested type keeps its `+` in its own identifier. The identifiers of its properties and enum values use a dot instead. |
| Documentation.ParameterlessMethodKey | src/Folke.CsTsService/Documentation.cs:47-57 | A method without parameters is identified with empty parentheses. |
| Documentation.DocumentationIndex.Empty | src/Folke.CsTsService/Documentation.cs:14-17 | A documentation without a file indexes nothing. |
| Documentation.DocumentationIndex.FromMembers | src/Folke.CsTsService/Documentation.cs:19-25 | The index holds every member element under its name, in document order. |
| Documentation.EmptyFindsNothing | src/Folke.CsTsService/Documentation.cs:27-45 | With an empty index, every lookup that does not throw gives null. |
| Documentation.MethodTextFromMembers | src/Folke.CsTsService/Documentation.cs:27-57 | A method's documentation is null exactly when no element carries the method's identifier. Otherwise it is the text of the last element that does. |
| WaAdapter.ObservableUnlessJsonSaysNo | src/Folke.CsTsService/WaAdapter.cs:16-19 | A type is not observable exactly when it has a `JsonAttribute` and the first one does not set `Observable` to true. |
| WaAdapter.GetRoutePrefixName | src/Folke.CsTsService/WaAdapter.cs:21-24 | The prefix is `RoutePrefix.Name` when set, and otherwise `Route.Template`. |
| WaAdapter.NoPrefixWithoutRouteAttributes | src/Folke.CsTsService/WaAdapter.cs:21-24 | A controller with neither attribute has no route prefix. |
| WaAdapter.GetRouteFormat | src/Folke.CsTsService/WaAdapter.cs:34-48 | The route is `Route.Format`, else `Route.Template`, else the template of the first verb attribute (or the empty text). It is null exactly when no source gives one. |
| WaAdapter.FirstVerb | src/Folke.CsTsService/WaAdapter.cs:39-46 | The verb attribute that is chosen is present, and no verb attribute earlier in the Get, Post, Put, Delete order is present. |
| WaAdapter.ActionWithoutRoute | src/Folke.CsTsService/WaAdapter.cs:26-48 | An action without a route carries a `Route` attribute that sets neither format nor template, and carries no verb attribute. |
| WaAdapter.GetReturnType | src/Folke.CsTsService/WaAdapter.cs:50-66 | A type that is returned never means "no content". A type that is neither `Task<T>` nor `IHttpActionResult<T>` is returned unless it means "no content". |
| WaAdapter.TaskOfPlain | src/Folke.CsTsService/WaAdapter.cs:50-66 | A `Task<W>` whose `W` is not an `IHttpActionResult<T>` returns `W`, or null when `W` means "no content". |
| WaAdapter.ActionResultOfPlain | src/Folke.CsTsService/WaAdapter.cs:50-66 | An `IHttpActionResult<W>` that is not under `Task` returns `W`, or null when `W` means "no content". |
| WaAdapter.TaskUnwrappedOnce | src/Folke.CsTsService/WaAdapter.cs:50-66 | `Task<Task<U>>` gives `Task<U>`: `Task<T>` is unwrapped only once. |
| WaAdapter.TaskOfActionResult | src/Folke.CsTsService/WaAdapter.cs:52-61 | `Task<IHttpActionResult<T>>` gives `T`, unless `T` itself means "no content". |
| WaAdapter.ActionRule | src/Folke.CsTsService/WaAdapter.cs:26-32 | `NonAction` or a return type named `ActionResult` each rule a method out. Otherwise it is an action exactly when it has a `Route` or verb attribute. |
| WaAdapter.FromUriRule | src/Folke.CsTsService/WaAdapter.cs:68-71 | A parameter binds from the URI exactly when it has a `FromUri` or `FromQuery` attribute. |
| WaAdapter.GetUnionTypes | src/Folke.CsTsService/WaAdapter.cs:93-96 | Reading succeeds exactly when every `ReturnTypeAttribute` sets `ReturnType`. Alternative `i` is then the `ReturnType` of the `i`-th such attribute, in order. There are none without one. |
| MvcAdapter.GetRoutePrefixName | src/Folke.CsTsService/MvcAdapter.cs:21-24 | The prefix is null without a `Route` attribute. Otherwise it is the `Template` of the first `Route` attribute, or null when that attribute sets none. |
| MvcAdapter.GetRouteFormat | src/Folke.CsTsService/MvcAdapter.cs:32-43 | The route is the template of the first present verb attribute, in the Get, Post, Put, Delete order, or the method's name when none is present. |
| MvcAdapter.EmptyTemplateIsEmptyRoute | src/Folke.CsTsService/MvcAdapter.cs:34-35 | A verb attribute without a template gives the empty route, not the method's name. |
| MvcAdapter.GetReturnType | src/Folke.CsTsService/MvcAdapter.cs:45-56 | `Task<T>` is unwrapped once. A "no content" type gives null. |
| MvcAdapter.ActionResultItselfKept | src/Folke.CsTsService/MvcAdapter.cs:53 | A type that is itself named `IActionResult`, with no base type, is kept as the return type: only the base chain is searched. |
| MvcAdapter.SuffixedNamesAreNotVerbs | src/Folke.CsTsService/MvcAdapter.cs:58-81 | With the usual `...Attribute` names, an action is still found. But it is never a Post, Put or Delete action, and no parameter comes from the query or the body. |
| MvcAdapter.AlwaysObservable | src/Folke.CsTsService/MvcAdapter.cs:16-19 | Every type is observable, even one with a `JsonAttribute`. |
| MvcAdapter.ActionRule | src/Folke.CsTsService/MvcAdapter.cs:26-30 | A method is an action exactly when it has one of the four verb attributes. `Route`, `NonAction` and the return type play no part. |
| MvcAdapter.GetUnionTypes | src/Folke.CsTsService/MvcAdapter.cs:83-86 | No alternatives are ever reported. |
| ApiAdapters.ApiAdapter.GetRouteFormat | src/Folke.CsTsService/IApiAdapter.cs:13 | Under the MVC rules an action always has a route. |
| ApiAdapters.ApiAdapter.GetReturnType | src/Folke.CsTsService/IApiAdapter.cs:14 | The return type is well formed under both dialects. |
| ApiAdapters.ApiAdapter.GetUnionTypes | src/Folke.CsTsService/IApiAdapter.cs:20 | Under the MVC rules, reading the alternatives never fails and gives none. |
| ConverterRules.Camelize | src/Folke.CsTsService/Converter.cs:650-653 | A name keeps its length and every character after the first; the first is lower-cased. |
| ConverterRules.UnionNames | src/Folke.CsTsService/Converter.cs:681 | One name per alternative, in order, each named without alternatives of its own. |
| ConverterRules.GetTypeNameClassification | src/Folke.CsTsService/Converter.cs:660-691 | The five numeric types are `number`. String and TimeSpan are `string`, DateTime is `Date`, bool is `boolean`. Object is `any` without alternatives and the `|`-joined alternative names with them. Any other type is its own name, with `Data` added when the adapter does not call it observable. |
| ConverterRules.PlainValuesHaveFixedNames | src/Folke.CsTsService/Converter.cs:655-691 | Every type `NeedNew` rejects gets a fixed TypeScript name, and no plain value needs `new`. |
| ConverterRules.MvcNamesAreTypeNames | src/Folke.CsTsService/Converter.cs:688-690 | Under the MVC rules every other type is named by its own name. |
| ConverterRules.CheckCollectionType | src/Folke.CsTsService/Converter.cs:629-648 | Null is not a collection. A non-collection is returned unchanged. A generic collection yields its first type argument. An array is always a collection and yields its element type. |
| ConverterRules.GenericCollections | src/Folke.CsTsService/Converter.cs:633-641 | A generic type is a collection exactly when its definition implements an interface named `IEnumerable`, and then it yields its first argument. |
| ConverterRules.HttpMethod | src/Folke.CsTsService/Converter.cs:504-512 | The verb is POST if the action is a post. Otherwise it is PUT, then DELETE, then GET, each case stated as an if-and-only-if. |
| ConverterRules.MvcSuffixedActionsAreGet | src/Folke.CsTsService/Converter.cs:504-512 | Under the MVC rules, an action whose attribute names all end in `Attribute` is a GET. |
| ConverterRules.ControllerPrefix | src/Folke.CsTsService/Converter.cs:387-389 | There is no prefix exactly when the adapter gives none. A prefix without `[controller]` is kept as it is. |
| ConverterRules.ControllerTemplate | src/Folke.CsTsService/Converter.cs:387-389 | A prefix `head[controller]tail` becomes `head`, then the controller's name with every `Controller` removed, then `tail`. |
| ConverterRules.ActionRoute | src/Folke.CsTsService/Converter.cs:534-538 | A `~/` route loses only its `~`. Any other route starts with `/prefix/` and ends with the route format. Every route starts with `/`. |
| ConverterRules.WordRun | src/Folke.CsTsService/Converter.cs:539 | The longest leading run of word characters (`\w+`). |
| ConverterRules.CloseOnLine | src/Folke.CsTsService/Converter.cs:539 | The first `}` with no line break before it (the lazy `.*?`), or none. |
| ConverterRules.PlaceholderAt | src/Folke.CsTsService/Converter.cs:539 | A placeholder `{(\w+)(:.*?)?}` matched at the start of a text: its name is a word run and its length ends at the closing brace. |
| ConverterRules.NoBraceUnchanged | src/Folke.CsTsService/Converter.cs:539-540 | A route without `{` is left as it is. |
| ConverterRules.PlainPlaceholder | src/Folke.CsTsService/Converter.cs:539-540 | `{name}` becomes `' + parameters.name + '`. |
| ConverterRules.ConstrainedPlaceholder | src/Folke.CsTsService/Converter.cs:539-540 | `{name:constraint}` becomes `' + parameters.name + '`. |
| ConverterRules.ReplacedAt | src/Folke.CsTsService/Converter.cs:539-540 | Where a placeholder starts, it is replaced and the scan resumes after it. |
| ConverterRules.KeptAt | src/Folke.CsTsService/Converter.cs:539-540 | Where no placeholder starts, the character is kept. |
| ConverterRules.ConstrainedAt | src/Folke.CsTsService/Converter.cs:539 | A constrained placeholder is matched up to its first closing brace. |
| ConverterRules.OptionalPlaceholderKept | src/Folke.CsTsService/Converter.cs:539-540 | `{name?}` is not a placeholder and stays in the route untouched. |
| ConverterRules.KeptWhole | src/Folke.CsTsService/Converter.cs:539-540 | A text that starts no placeholder and has no later `{` is kept whole. |
| ConverterRules.NotPlaceholder | src/Folke.CsTsService/Converter.cs:539 | A brace and a word followed by anything but `}` or `:` start no placeholder. |
| Converter.RegisterSpec | src/Folke.CsTsService/Converter.cs:613-627 | `RegisterType` ignores `System` types and never puts an enum among the views. It adds a view, unprocessed, only when absent, so a processed view is never reset. Afterwards every other type is known. |
| Converter.RegisterAllSpec | src/Folke.CsTsService/Converter.cs:613-627 | Registering a list of types keeps every existing entry. It only adds unprocessed views and enums taken from the list. |
| Converter.RegisterAllAppend | src/Folke.CsTsService/Converter.cs:613-627 | Registering two lists in turn is registering their concatenation. |
| Converter.RegisterAllKeys | src/Folke.CsTsService/Converter.cs:613-627 | Registration adds only the registered types and processes nothing. |
| Converter.FirstPending | src/Folke.CsTsService/Converter.cs:82 | `views.First(x => !x.Value)` finds the earliest pending view. There is none exactly when every view is processed. |
| Converter.MarkSpec | src/Folke.CsTsService/Converter.cs:82-83 | Marking processes exactly one view, a pending one, and adds no type. |
| Converter.Underlying | src/Folke.CsTsService/Converter.cs:136-140 | Unwrapping a nullable type yields a well-formed type. |
| Converter.PropertyRegistrations | src/Folke.CsTsService/Converter.cs:146-239 | Only the web-API adapter's reading of union alternatives can fail, and a property that fails registers nothing. |
| Converter.ViewRegistrationsInUniverse | src/Folke.CsTsService/Converter.cs:116-239 | Every type a view registers lies within a finite universe fixed by the metadata. |
| Converter.StepProgress | src/Folke.CsTsService/Converter.cs:39-42 | A `WriteLastView` step strictly grows the processed views inside a finite bound, never un-processes an entry and keeps the registry valid. This is why the worklist ends. |
| Converter.StepKeys | src/Folke.CsTsService/Converter.cs:80-239 | A step adds only types from the metadata's universe. |
| Converter.ProcessedInKeys | src/Folke.CsTsService/Converter.cs:82-83 | Processed views are registered views. |
| Converter.RegisterAllKnows | src/Folke.CsTsService/Converter.cs:613-627 | Registering types keeps every enum and every view entry. Afterwards each registered type that is not a `System` type is known: an enum in the enum set, any other type among the views. |
| Converter.RegisterAllClosed | src/Folke.CsTsService/Converter.cs:613-627 | Registration processes nothing, so if every type each processed view registers was known before, it still is. |
| Converter.StepClosed | src/Folke.CsTsService/Converter.cs:80-239 | A `WriteLastView` step keeps every enum and view entry. When it succeeds, the view it processes has all its properties' types known, and the views processed before stay that way. |
| Converter.LoadControllers | src/Folke.CsTsService/Converter.cs:598-611 | The result is exactly the exported classes named `...Controller`, other than `TypedController`, that the adapter takes for controllers. |
| Converter.ActionRegistrations | src/Folke.CsTsService/Converter.cs:399-452 | An action registers its unwrapped return type first, when there is one. Then it registers, at each position, the unwrapped type of the parameter there. |
| Converter.ParameterRegistrations | src/Folke.CsTsService/Converter.cs:439-452 | Registered type `j` is the unwrapped type of parameter `j`, one per parameter. |
| Converter.ActionsRegistrations | src/Folke.CsTsService/Converter.cs:392-535 | Under the MVC rules walking a controller's actions never fails, because every action has a route. |
| Converter.ControllerRegistrations | src/Folke.CsTsService/Converter.cs:385-594 | A controller without a route prefix registers nothing and does not fail. A routed one registers exactly what its actions register. |
| Converter.ControllerNamedControllerFails | src/Folke.CsTsService/Converter.cs:594 | A routed class named `Controller` fails: its name without `Controller` is empty, and `Camelize` reads its first character. |
| Converter.ControllersRegistrationsSucceed | src/Folke.CsTsService/Converter.cs:31-36 | Walking the controllers in turn succeeds exactly when every one of them succeeds. |
| Converter.Converter.constructor | src/Folke.CsTsService/Converter.cs:20-27 | The enum set and the view dictionary start empty. |
| Converter.Converter.RegisterType | src/Folke.CsTsService/Converter.cs:613-627 | It updates the set and the dictionary in place, as `Register` states, and keeps the registry valid. |
| Converter.Converter.RegisterEach | src/Folke.CsTsService/Converter.cs:677-680 | `RegisterType` applied to each type in turn. |
| Converter.Converter.RegisterPropertyTypes | src/Folke.CsTsService/Converter.cs:146-239 | It registers one property's types through the same branches as `PropertyRegistrations`. |
| Converter.Converter.WriteLastView | src/Folke.CsTsService/Converter.cs:80-239 | The first pending view is marked processed, then its properties' types are registered (`ViewStep`). |
| Converter.Converter.ProcessViews | src/Folke.CsTsService/Converter.cs:39-42 | The worklist terminates. Every enum and every entry present before is kept, each entry at its place and with its processed flag. It adds only types from the metadata's universe. When it succeeds, no view is pending. If the views processed at the start had all their types known, then on success every type any view registers is known. |
| Converter.Converter.WriteController | src/Folke.CsTsService/Converter.cs:385-596 | A controller's registrations are made in order, as `ControllerRegistrations` states. It fails exactly when that does, including the empty camelized name. |
| Converter.Converter.WriteControllerMethod | src/Folke.CsTsService/Converter.cs:392-535 | One method of the controller loop extends the registrations by that action's types, or stops at an action without a route. |
| Converter.Converter.Write | src/Folke.CsTsService/Converter.cs:29-42 | The recognised controllers are walked in order. If one fails, `Write` fails and the registry holds exactly the registrations made up to that point (`ControllersRegistrations`). Otherwise the views then grow from that registry, within the metadata's universe. On success every view is processed. From a registry with no processed view, such as a new converter's, every type any view registers is then known. |
| TypeScriptText.DocTextShape | src/Folke.CsTsService/TypeScriptWriter.cs:98-111 | The doc comment is empty exactly when the documentation is null or empty. Otherwise it opens with `/** ` and the optional prefix, and closes with the documentation, ` */` and a line end. |
| TypeScriptText.TypeTextShape | src/Folke.CsTsService/TypeScriptWriter.cs:663-770 | A dictionary's text opens with `{ [key: string]: ` and the kind and closes with ` }`. Any other type's text opens with the kind itself. A collection not told otherwise ends with `[]`. |
| TypeScriptText.PrimitiveNames | src/Folke.CsTsService/TypeScriptWriter.cs:668-722 | Decimal, Double, Float, Int and Long are `number`. Guid, String and TimeSpan are `string`. Boolean is `boolean` and Any is `any`. DateTime is `Date` exactly when observables are allowed, and `string` otherwise. |
| TypeScriptText.UnionTextShape | src/Folke.CsTsService/TypeScriptWriter.cs:723-735 | Alternatives are written in order: the text opens with the first and closes with the last. Its length is theirs plus one ` | ` per neighbouring pair, so there is no leading or trailing separator. |
| TypeScriptText.GenericsTextShape | src/Folke.CsTsService/TypeScriptWriter.cs:742-760 | Generic arguments are written in order between `<` and `>`, never as observables. |
| TypeScriptText.TypeTextsItems | src/Folke.CsTsService/TypeScriptWriter.cs:726-757 | Each nested type is written in full, in list order. A collection keeps its own `[]`. |
| TypeScriptText.TypeTextAgree | src/Folke.CsTsService/TypeScriptWriter.cs:695-698 | A type's text depends on the `Edit` choice only in edition mode, and then only through the classes it names as Objects. |
| TypeScriptText.ClassNameShape | src/Folke.CsTsService/TypeScriptWriter.cs:252-262 | A class name starts with `KoName` in knockout mode and `Name` otherwise. The name is followed by something exactly when there are generic parameters, and that is an angle-bracketed list. |
| TypeScriptText.OptionalMarker | src/Folke.CsTsService/TypeScriptWriter.cs:638-650 | After the doc comment, the indent and the name, the property's line has `?` exactly when the property is not required. |
| TypeScriptText.WrittenPropertiesSpec | src/Folke.CsTsService/TypeScriptWriter.cs:594-608 | Outside edition mode every property is written. In edition mode exactly the properties that are not read-only are written. |
| TypeScriptText.EnumValueShape | src/Folke.CsTsService/TypeScriptWriter.cs:626-631 | An enum value opens with its doc comment exactly when its documentation is non-empty, and ends with ` = ` and its value. |
| TypeScriptText.InterfaceOrEnum | src/Folke.CsTsService/TypeScriptWriter.cs:582-613 | A class is declared as an interface exactly when it has properties, and as a const enum exactly when it has none. |
| TypeScriptText.DefinitionTextAgree | src/Folke.CsTsService/TypeScriptWriter.cs:571-636 | A definition's text depends on the `Edit` choice only through the classes its written properties name. |
| ControllerText.SortedActionsSpec | src/Folke.CsTsService/TypeScriptWriter.cs:156 | Actions are ordered by name in ordinal order, then by parameter count among equal names. The order keeps every action and is stable for equal keys. |
| ControllerText.MethodNameSuffixes | src/Folke.CsTsService/TypeScriptWriter.cs:156-164 | Among actions sharing a name, earlier ones get smaller 1-based suffixes, all within the number of such actions, and the name is then shared by more than one. |
| ControllerText.UniqueNameNoSuffix | src/Folke.CsTsService/TypeScriptWriter.cs:159-164 | An action whose name no other action has is written under its camel-cased name, with no suffix. |
| ControllerText.OverloadsDistinct | src/Folke.CsTsService/TypeScriptWriter.cs:156-164 | Two actions of the same name always get different method names. |
| ControllerText.NumberedDistinct | src/Folke.CsTsService/TypeScriptWriter.cs:159-164 | A name numbered with two different counts gives two different texts. |
| ControllerText.SuffixClash | src/Folke.CsTsService/TypeScriptWriter.cs:159-164 | Actions `Item()`, `Item(id)` and `Item1()` give two methods named `item1`: suffixes can collide with a real name. |
| ControllerText.ParameterDocsEmpty | src/Folke.CsTsService/TypeScriptWriter.cs:785-788 | The parameter lines of a doc block are empty exactly when no parameter has documentation. |
| ControllerText.DocBlockNeverEmpty | src/Folke.CsTsService/TypeScriptWriter.cs:777-795 | The doc block is written exactly when the action, a parameter or the return has documentation, and it then has some documentation line. |
| ControllerText.ParameterTextsItems | src/Folke.CsTsService/TypeScriptWriter.cs:799-811 | Text `i` of the signature is parameter `i`: its name, `?` unless it is required, `: `, and its type written in edition mode. |
| ControllerText.FetchHelperChoice | src/Folke.CsTsService/TypeScriptWriter.cs:829-859 | The helper is `fetchVoid` exactly without a return. It is `fetchList` exactly for a collection return, and `fetchSingle` exactly for any other return. The `T` variant is used exactly for a knockout observable or a DateTime return. |
| ControllerText.PathRouteCharwise | src/Folke.CsTsService/TypeScriptWriter.cs:863 | The two replacements applied to a route with path parameters equal one character-by-character rewrite. |
| ControllerText.TemplatedSpec | src/Folke.CsTsService/TypeScriptWriter.cs:861-866 | No `?` is left in a templated route, and a route without `{` or `?` is kept as it is. |
| ControllerText.PathRouteExample | src/Folke.CsTsService/TypeScriptWriter.cs:863 | `{id?}` becomes `${params.id}`. |
| ControllerText.QueryEntriesSpec | src/Folke.CsTsService/TypeScriptWriter.cs:873-894 | There is one query entry per query parameter, and none exactly when no parameter is bound to the query. |
| ControllerText.VerbRoundTrip | src/Folke.CsTsService/TypeScriptWriter.cs:897-911 | Each action method is written as a distinct verb string that reads back as the same method. |
| ControllerText.FirstBodySpec | src/Folke.CsTsService/TypeScriptWriter.cs:929 | The body parameter is the first one bound to the body, and there is none exactly when no parameter is. |
| ControllerText.BodyFromFirst | src/Folke.CsTsService/TypeScriptWriter.cs:929-943 | The body argument is `null` exactly without a body parameter. Parameters after the first body parameter do not change it. |
| ControllerText.ControllerImports | src/Folke.CsTsService/TypeScriptWriter.cs:135-147 | Outside knockout mode a controller module imports `./views` exactly when it uses it, and never `koViews`. In knockout mode it imports nothing exactly when it uses neither module. |
| ControllerText.ControllerKeyClash | src/Folke.CsTsService/TypeScriptWriter.cs:130-151 | Two controllers get the same module key exactly when their names have the same length and differ at most in the case of the first letter. |
| ControllerText.KeysClashOnCase | src/Folke.CsTsService/TypeScriptWriter.cs:130-151 | Two controllers whose names differ only in the case of the first letter make `WriteAssembly` fail, whatever modules were there before. |
| ControllerText.ReservedControllerNames | src/Folke.CsTsService/TypeScriptWriter.cs:130-151 | Outside knockout mode a controller named `Views` or `Services` takes the key of the views or services module. |
| ControllerText.SortedControllersSpec | src/Folke.CsTsService/TypeScriptWriter.cs:36 | Controllers are ordered by name, all kept, and equal names keep their order. |
| ControllerText.FreshKeysSpec | src/Folke.CsTsService/TypeScriptWriter.cs:151 | `Dictionary.Add` succeeds along a list of keys exactly when no key was present and no key repeats. |
| ControllerText.ControllerModulesKeys | src/Folke.CsTsService/TypeScriptWriter.cs:37-40 | After the controllers are written, the keys are the old ones plus one per controller written. |
| ControllerText.ServicesLayout | src/Folke.CsTsService/TypeScriptWriter.cs:47-93 | The services module has three lines per controller plus the fixed ones. Line `k` imports controller `k`, in sorted order. The `k`-th instance line and the `k`-th entry of `services` are for controller `k`. All imports and instances come before `export const services = {`, and all entries after it. |
| ControllerText.ServiceImportsResolve | src/Folke.CsTsService/TypeScriptWriter.cs:34-95 | Every module the services module imports is one that `WriteAssembly` adds. Line `k` imports `./m`, where `m` is the camel-cased name of controller `k`. It also declares the instance `m` and lists it in `services`. The module `m` sits in the services module's own directory, and both modules are in the assembly. |
| KoValidation.AsWrittenChain | src/Folke.CsTsService/TypeScriptWriter.cs:527-565 | As written, the chain never has `isAtMost` or `hasMaxLength`. A maximum length gives `hasMinLength`, and any maximum gives `isInRange` with the minimum, or an empty text when there is none. |
| KoValidation.AsWrittenEmptyLowerBound | src/Folke.CsTsService/TypeScriptWriter.cs:554-557 | A maximum of 10 with no minimum is written as `isInRange(, 10)`, where `isAtMost(10)` is intended. |
| KoValidation.AsWrittenMaximumLength | src/Folke.CsTsService/TypeScriptWriter.cs:544-547 | A maximum length of 50 is checked with `hasMinLength(50)`, where `hasMaxLength(50)` is intended. |
| KoValidation.IntendedChain | src/Folke.CsTsService/TypeScriptWriter.cs:527-565 | The intended chain holds exactly the validators the constraints call for, and only when the property needs validation. |
| KoValidation.ChainsAgreeOffTheSlips | src/Folke.CsTsService/TypeScriptWriter.cs:527-565 | Without a maximum length, and with a minimum whenever there is a maximum, the written chain is the intended one. |
| Ordering.StringLessTotal | src/Folke.CsTsService/TypeScriptWriter.cs:36 | The ordinal string order is irreflexive, asymmetric and total. |
| Ordering.StringLessTransitive | src/Folke.CsTsService/TypeScriptWriter.cs:36 | The ordinal string order is transitive. |
| Ordering.KeyLessOrder | src/Folke.CsTsService/TypeScriptWriter.cs:156 | Ordering by name, then by count, is a strict total order. |
| Ordering.SortBySpec | src/Folke.CsTsService/TypeScriptWriter.cs:156 | The stable sort yields the keys in order, keeps every element, and keeps the order of elements with equal keys. |
| Ordering.InsertSpec | src/Folke.CsTsService/TypeScriptWriter.cs:156 | Inserting into a sorted list keeps it sorted, adds exactly the element, and places it after the elements with its key. |
| Text.IntToStringRoundTrip | src/Folke.CsTsService/TypeScriptWriter.cs:631 | The decimal text of an integer reads back as that integer. |
| Text.Before | src/Folke.CsTsService/Documentation.cs:65 | The text before the first backtick is a prefix with no backtick, followed by the backtick when it is shorter. |
| Writer.Dependencies.constructor | src/Folke.CsTsService/TypeScriptWriter.cs:183-194 | The dependencies start with every flag down and the given module prefixes. |
| Writer.TypeScriptWriter.constructor | src/Folke.CsTsService/TypeScriptWriter.cs:18-22 | The helper and validation module names default to `folke-ko-service-helpers` and `folke-ko-validation`, and there are no modules yet. |
| Writer.TypeScriptWriter.WriteType | src/Folke.CsTsService/TypeScriptWriter.cs:661-771 | Appends the type's text. In edition mode it asks `HasReadOnly` of each class it names; the `Edit` suffix follows those answers, and the answers stay cached. It raises the `views`/`koViews` flags exactly when it writes that module's prefix. |
| Writer.TypeScriptWriter.AppendFormatDocumentation | src/Folke.CsTsService/TypeScriptWriter.cs:98-111 | Appends the doc comment, or nothing for an empty documentation. |
| Writer.TypeScriptWriter.WriteClassName | src/Folke.CsTsService/TypeScriptWriter.cs:252-262 | Appends the class name and its generic parameters. |
| Writer.TypeScriptWriter.WriteProperty | src/Folke.CsTsService/TypeScriptWriter.cs:638-650 | Appends the property line, its type written without observables, and raises the flags its type calls for. |
| Writer.TypeScriptWriter.WriteTypeDefinition | src/Folke.CsTsService/TypeScriptWriter.cs:571-636 | Appends the interface or const enum of the class, with the properties edition mode keeps. |
| Writer.TypeScriptWriter.WriteProperties | src/Folke.CsTsService/TypeScriptWriter.cs:593-609 | The property loop appends the lines of exactly the written properties, in order, one line break between two. |
| Writer.TypeScriptWriter.WriteEnum | src/Folke.CsTsService/TypeScriptWriter.cs:613-635 | Appends the const enum header and the values, in order, separated by a comma and an empty line. |
| Writer.TypeScriptWriter.WriteKoValidators | src/Folke.CsTsService/TypeScriptWriter.cs:527-565 | Appends the intended validator chain, with the two slips corrected. |
| Writer.TypeScriptWriter.WriteDocBlock | src/Folke.CsTsService/TypeScriptWriter.cs:777-795 | Appends the action's doc block. |
| Writer.TypeScriptWriter.WriteSignature | src/Folke.CsTsService/TypeScriptWriter.cs:797-826 | Appends the method head with its parameter object. |
| Writer.TypeScriptWriter.WriteParameters | src/Folke.CsTsService/TypeScriptWriter.cs:799-811 | Appends the parameters in order, separated by `, `, each with `?` when optional. |
| Writer.TypeScriptWriter.WriteFetch | src/Folke.CsTsService/TypeScriptWriter.cs:827-859 | Appends the fetch helper's name and its type arguments. |
| Writer.TypeScriptWriter.WriteRoute | src/Folke.CsTsService/TypeScriptWriter.cs:861-870 | Appends the route, templated when a parameter is bound to the path. |
| Writer.TypeScriptWriter.WriteQuery | src/Folke.CsTsService/TypeScriptWriter.cs:873-894 | Appends the query string of the query parameters. |
| Writer.TypeScriptWriter.WriteBody | src/Folke.CsTsService/TypeScriptWriter.cs:929-943 | Appends the body argument. |
| Writer.TypeScriptWriter.WriteAction | src/Folke.CsTsService/TypeScriptWriter.cs:773-947 | Appends the whole action: doc block, signature, fetch call, route, query, verb, converter and body. |
| Writer.TypeScriptWriter.WriteActions | src/Folke.CsTsService/TypeScriptWriter.cs:154-168 | Appends the actions in sorted order, each under its possibly suffixed name. |
| Writer.TypeScriptWriter.WriteController | src/Folke.CsTsService/TypeScriptWriter.cs:113-152 | Adds the controller's module under its key, and fails exactly when the key is taken. |
| Writer.TypeScriptWriter.WriteControllers | src/Folke.CsTsService/TypeScriptWriter.cs:36-40 | Succeeds exactly when the controllers' keys are fresh and distinct. It then adds one module per controller. |
| Writer.TypeScriptWriter.WriteViews | src/Folke.CsTsService/TypeScriptWriter.cs:170-181 | Adds the definitions of the assembly's types, in order, as the `views` module. |
| Writer.TypeScriptWriter.WriteServices | src/Folke.CsTsService/TypeScriptWriter.cs:47-93 | Writes the services module, whose line layout `ServicesLayout` states. |
| Writer.TypeScriptWriter.WriteAssembly | src/Folke.CsTsService/TypeScriptWriter.cs:34-96 | Succeeds exactly when no module key is met twice or was already present. It then adds exactly the controller, views and services modules. |

## Left out

- `Program.cs`: the command line and console output, which are I/O.
- `ApplicationPartManagerExtensions.cs`: ASP.NET host glue that writes files and calls APIs outside this model.
- `OptionalJsonConverter.cs` and `OptionalJsonConverterFactory.cs`: thin wrappers over System.Text.Json and `Activator.CreateInstance`.
- `ReturnTypeAttribute.cs` and `UnionTypeAttribute.cs`: attribute records with no logic. They appear only as attribute descriptors.
- File output: `TypeScriptWriter.WriteToFiles` (TypeScriptWriter.cs:24-32) and `File.WriteAllText` in `Converter.Write` (Converter.cs:61). The model ends at the `OutputModules` dictionary and at the converter's registry.
- Live reflection: `Type`, `MethodInfo`, `PropertyInfo` and custom attributes become descriptor values. A type's properties and methods come from a `Metadata` map.
- XML parsing: the documentation index is built from (member name, text) pairs instead of an `XDocument`.
- `Nodes.AssemblyNode`: `Types` is declared as `Dictionary<string, TypeNode>` (Nodes/AssemblyNode.cs:10), but the writer uses its values as class nodes. `WriteViews` passes each value to `WriteTypeDefinition`, which takes a `ClassNode` (TypeScriptWriter.cs:177), and line 204 reads `IsObservable` on the values. The model follows the writer. `Types` holds `ClassNode` values, as a sequence of `TypeEntry` pairs in insertion order. That is the order a `Dictionary` enumerates when nothing is removed, which .NET does not document as guaranteed.
- `Nodes.ClassNode`: the class declares no `IsObservable` member (Nodes/ClassNode.cs), yet the writer reads `Class.IsObservable` (TypeScriptWriter.cs:332, 360, 677, 836, 851, 920, 934). The model follows the writer and gives `ClassNode` an `IsObservable` constant of its own, set by its constructor.
- `ReadControllers`, which builds the node graph, is not part of this model. The writer starts from a given `AssemblyNode` and graph.
- Case mapping: `ToLowerInvariant` and `ToUpperInvariant` are ASCII-only.
- String order: the sorts use ordinal order on characters. .NET's default `OrderBy` on strings is culture-sensitive.
- `Debug.Assert` calls and commented-out code have no effect and are not modelled.
- Object identity: `IndexOf` and `First` over actions and parameters compare references. The model identifies them by position.
- `Environment.NewLine` is modelled as `"\n"`.
- Null strings cannot be represented, so `ToCamelCase(null)` and `ToPascalCase(null)` are not modelled.
- `ConverterRules.Camelize` requires a non-empty name: the source indexes `name[0]` and throws on the empty name.
- Converter text output: the text of `WriteEnum`, `WriteLastView` and `WriteController` in Converter.cs, including `NeedValidation` (Converter.cs:369-383), is not modelled. What is modelled is the registration of enums and views, the worklist that drives them, and the naming, route and verb rules that the text uses.
- The knockout views module: `WriteKoViews`, `WriteKoClass` and the parts of `WriteKoProperty` other than the validator chain (TypeScriptWriter.cs:196-250, 264-537) are not modelled. `WriteAssembly` takes the module's text as a parameter, `koViews`. The validator chain (TypeScriptWriter.cs:539-567) is modelled in `KoValidation`.
- The `Dependencies` flags `ToDate`, `FromDate`, `ArrayChanged`, `DateArrayChanged` and `ValidationModule` are set only by the knockout views. The model only initialises them.
- `Nodes.ClassNode.HasReadOnly`: only soundness (a cached `true` comes from a reachable read-only property) and direct completeness are proved. A provisional `false` cached inside a cycle can stay `false` for a class that does reach a read-only property. The source's memoisation does not promise completeness.
- `ConverterRules.WordRun`: `\w` is modelled as the ASCII class `[A-Za-z0-9_]`. The .NET class also takes Unicode letters and digits, so the model keeps a placeholder such as `{é}` unchanged where the source rewrites it.
- `Nodes.ClassNode.SetWritable` requires the graph to be closed: every property of a class is a graph property, and every Object-typed property points to a graph class. A graph that `ReadControllers` builds has this shape, and the requirement lets the proof range over the graph's classes.
- `ConverterRules.ControllerPrefix`: the replacement of `[controller]` is stated (in `ConverterRules.ControllerTemplate`) only for a template with exactly one `[controller]` and no `[` before it.
- The tests in `TestConverter.cs` target a different API and output format (`ReadControllers`, `fetchJson`, `ApiClient`), so they are not used as evidence for the text.

## Findings

| source | as written | input that shows it | evidently intended | confidence | as-written member | corrected member |
|---|---|---|---|---|---|---|
| src/Folke.CsTsService/TypeScriptWriter.cs:544-547 | A `MaximumLength` adds a `hasMinLength` validator. | An observable property with `MaximumLength` 50 gets `validation.hasMinLength(50)`. | A `hasMaxLength(50)` validator. | not executed | KoValidation.AsWrittenMaximumLength | KoValidation.IntendedChain |
| src/Folke.CsTsService/TypeScriptWriter.cs:554-557 | The range test is `Maximum != null & Maximum != null`, so it never looks at `Minimum`. | An observable property with `Maximum` "10" and no `Minimum` gets `validation.isInRange(, 10)`, which is not valid TypeScript. | `Minimum != null & Maximum != null`: the same property gets `isAtMost(10)`. | not executed | KoValidation.AsWrittenEmptyLowerBound | KoValidation.IntendedChain |
