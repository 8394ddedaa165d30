/** The rule-based, side-effect-free parts of the legacy converter (Converter.cs): type
    names, collection detection, verbs, routes and placeholder rewriting. */
module ConverterRules {
  import opened Wrappers
  import opened Text
  import opened Reflection
  import opened ApiAdapters

  /** `Camelize`: the first character lower-cased, the rest kept. An empty name makes the
      source index out of range, so a name is required to be non-empty. */
  function Camelize(name: string): (r: string)
    requires |name| > 0
    ensures |r| == |name|
    ensures r[0] == ToLower(name[0])
    ensures r[1..] == name[1..]
  {
    [ToLower(name[0])] + name[1..]
  }

  /** The types written as plain JSON values, never constructed with `new`. */
  predicate IsPlainValue(t: TypeDesc) {
    t.Is(Int32Name) || t.Is(Int64Name) || t.Is(SingleName) || t.Is(DoubleName) || t.Is(StringName) ||
    t.Is(BooleanName) || t.Is(DecimalName) || t.Is(TimeSpanName) || t.Is(ObjectName)
  }

  /** `NeedNew`: a value of the type is built with `new` on the client. */
  predicate NeedNew(t: TypeDesc) {
    !IsPlainValue(t) && !t.IsEnum
  }

  /** The TypeScript name of a type. `unions` are the alternatives declared on the property
      the type comes from (empty when there is no property); they matter only for `object`. */
  function GetTypeName(adapter: ApiAdapter, t: TypeDesc, unions: seq<TypeDesc>): (r: string)
    decreases if unions == [] then 0 else 1, |unions| + 1
  {
    if t.Is(Int32Name) || t.Is(SingleName) || t.Is(DoubleName) || t.Is(Int64Name) || t.Is(DecimalName) then "number"
    else if t.Is(StringName) || t.Is(TimeSpanName) then "string"
    else if t.Is(DateTimeName) then "Date"
    else if t.Is(BooleanName) then "boolean"
    else if t.Is(ObjectName) then
      if unions != [] then Join("|", UnionNames(adapter, unions)) else "any"
    else if !adapter.IsObservableObject(t) then t.Name + "Data"
    else t.Name
  }

  /** The names of the alternatives, each named without alternatives of its own. */
  function UnionNames(adapter: ApiAdapter, unions: seq<TypeDesc>): (r: seq<string>)
    ensures |r| == |unions|
    ensures forall i :: 0 <= i < |r| ==> r[i] == GetTypeName(adapter, unions[i], [])
    decreases 1, |unions|
  {
    if unions == [] then [] else [GetTypeName(adapter, unions[0], [])] + UnionNames(adapter, unions[1..])
  }

  /** The classification of `GetTypeName`: the five numeric types are `number`, text-like
      types `string`, `DateTime` is `Date`, `bool` is `boolean`, `object` is `any` or the
      alternatives joined by `|`, and any other type its own name, with `Data` appended
      when it is not observable. */
  lemma GetTypeNameClassification(adapter: ApiAdapter, t: TypeDesc, unions: seq<TypeDesc>)
    ensures (t.Is(Int32Name) || t.Is(SingleName) || t.Is(DoubleName) || t.Is(Int64Name) || t.Is(DecimalName)) ==>
      GetTypeName(adapter, t, unions) == "number"
    ensures (t.Is(StringName) || t.Is(TimeSpanName)) ==> GetTypeName(adapter, t, unions) == "string"
    ensures t.Is(DateTimeName) ==> GetTypeName(adapter, t, unions) == "Date"
    ensures t.Is(BooleanName) ==> GetTypeName(adapter, t, unions) == "boolean"
    ensures t.Is(ObjectName) && unions == [] ==> GetTypeName(adapter, t, unions) == "any"
    ensures t.Is(ObjectName) && unions != [] ==>
      GetTypeName(adapter, t, unions) == Join("|", UnionNames(adapter, unions))
    ensures !IsPlainValue(t) && !t.Is(DateTimeName) ==>
      GetTypeName(adapter, t, unions) == t.Name + (if adapter.IsObservableObject(t) then "" else "Data")
  {
  }

  /** Every plain value is named by a fixed TypeScript name (`number`, `string`, `boolean`
      or `any`) when no alternatives are given, and never by its own name. */
  lemma PlainValuesHaveFixedNames(adapter: ApiAdapter, t: TypeDesc)
    requires IsPlainValue(t)
    ensures GetTypeName(adapter, t, []) in {"number", "string", "boolean", "any"}
    ensures !NeedNew(t)
  {
  }

  /** Under the MVC rules no type is named with a `Data` suffix added. */
  lemma MvcNamesAreTypeNames(t: TypeDesc, unions: seq<TypeDesc>)
    requires !IsPlainValue(t) && !t.Is(DateTimeName)
    ensures GetTypeName(Mvc, t, unions) == t.Name
  {
  }

  /** `CheckCollectionType`: whether a (possibly null) type is a collection, and the type
      to use in its place: the first type argument of a generic type whose definition
      implements the non-generic `IEnumerable`, the element type of an array, else the
      type itself. */
  function CheckCollectionType(t: Option<TypeDesc>): (r: (bool, Option<TypeDesc>))
    requires t.Some? ==> t.value.WellFormed()
    ensures t.None? ==> r == (false, None)
    ensures !r.0 ==> r.1 == t
    ensures r.0 && t.value.IsGenericType() ==> r.1 == Some(t.value.GenericArguments[0])
    ensures r.0 && !t.value.IsGenericType() ==> t.value.IsArray() && r.1 == t.value.ElementType
    ensures t.Some? && t.value.IsArray() && !t.value.IsGenericType() ==> r.0
  {
    match t
    case None => (false, None)
    case Some(u) =>
      if u.IsGenericType() then
        if EnumerableDefinition(u) then (true, Some(u.GenericArguments[0])) else (false, t)
      else if u.IsArray() then (true, u.ElementType)
      else (false, t)
  }

  /** The generic definition implements an interface named `IEnumerable`. */
  predicate EnumerableDefinition(t: TypeDesc)
    requires t.IsGenericType()
  {
    exists i :: 0 <= i < |t.Definition.value.Interfaces| && t.Definition.value.Interfaces[i].Name == "IEnumerable"
  }

  /** A generic type is a collection exactly when its definition is enumerable; a
      dictionary therefore counts as a collection of its key type. */
  lemma GenericCollections(t: TypeDesc)
    requires t.WellFormed() && t.IsGenericType()
    ensures CheckCollectionType(Some(t)).0 <==> EnumerableDefinition(t)
    ensures EnumerableDefinition(t) ==> CheckCollectionType(Some(t)).1 == Some(t.GenericArguments[0])
  {
  }

  /** The verb of an action: POST, then PUT, then DELETE, else GET. */
  function HttpMethod(adapter: ApiAdapter, m: MethodDesc): (r: string)
    ensures r in {"POST", "PUT", "DELETE", "GET"}
    ensures r == "POST" <==> adapter.IsPostAction(m)
    ensures r == "PUT" <==> !adapter.IsPostAction(m) && adapter.IsPutAction(m)
    ensures r == "DELETE" <==> !adapter.IsPostAction(m) && !adapter.IsPutAction(m) && adapter.IsDeleteAction(m)
    ensures r == "GET" <==> !adapter.IsPostAction(m) && !adapter.IsPutAction(m) && !adapter.IsDeleteAction(m)
  {
    if adapter.IsPostAction(m) then "POST"
    else if adapter.IsPutAction(m) then "PUT"
    else if adapter.IsDeleteAction(m) then "DELETE"
    else "GET"
  }

  /** Under the MVC rules an action whose attribute names all carry the `Attribute`
      suffix is sent as GET, whatever its verb attribute. */
  lemma MvcSuffixedActionsAreGet(m: MethodDesc, p: ParameterDesc)
    requires forall i :: 0 <= i < |m.Attributes| ==> MvcAdapter.EndsWithAttribute(m.Attributes[i].Name)
    requires forall i :: 0 <= i < |p.Attributes| ==> MvcAdapter.EndsWithAttribute(p.Attributes[i].Name)
    ensures HttpMethod(Mvc, m) == "GET"
  {
    MvcAdapter.SuffixedNamesAreNotVerbs(m, p);
  }

  /** The route prefix of a controller, with `[controller]` replaced by the controller's
      name with every `Controller` removed; null when the adapter finds no prefix. */
  function ControllerPrefix(adapter: ApiAdapter, t: TypeDesc): (r: Option<string>)
    ensures r.None? <==> adapter.GetRoutePrefixName(t).None?
    ensures r.Some? && !Contains(adapter.GetRoutePrefixName(t).value, "[controller]") ==>
      r == adapter.GetRoutePrefixName(t)
  {
    match adapter.GetRoutePrefixName(t)
    case None => None
    case Some(prefix) =>
      var name := ReplaceAll(t.Name, "Controller", "");
      assert !Contains(prefix, "[controller]") ==> ReplaceAll(prefix, "[controller]", name) == prefix by {
        if !Contains(prefix, "[controller]") {
          ReplaceAbsent(prefix, "[controller]", name);
        }
      }
      Some(ReplaceAll(prefix, "[controller]", name))
  }

  /** A prefix template `head[controller]tail`, where `head` has no `[` and `tail` no further
      `[controller]`, becomes `head`, the controller's name without `Controller`, `tail`. */
  lemma ControllerTemplate(adapter: ApiAdapter, t: TypeDesc, head: string, tail: string)
    requires adapter.GetRoutePrefixName(t) == Some(head + "[controller]" + tail)
    requires '[' !in head && !Contains(tail, "[controller]")
    ensures ControllerPrefix(adapter, t) == Some(head + ReplaceAll(t.Name, "Controller", "") + tail)
  {
    var name := ReplaceAll(t.Name, "Controller", "");
    var prefix := head + "[controller]" + tail;
    assert prefix == head + ("[controller]" + tail);
    assert "[controller]"[0] == '[';
    ReplaceSkips(head, "[controller]" + tail, "[controller]", name);
    ReplaceAtStart("[controller]", tail, name);
    ReplaceAbsent(tail, "[controller]", name);
    assert ReplaceAll(prefix, "[controller]", name) == head + (name + tail);
    assert ControllerPrefix(adapter, t) == Some(ReplaceAll(prefix, "[controller]", name));
    assert head + (name + tail) == head + name + tail;
  }

  /** The route of an action before placeholders are rewritten: a route starting with `~/`
      drops only the `~`; any other is put under `/` + prefix + `/`. */
  function ActionRoute(routeFormat: string, routePrefix: string): (r: string)
    ensures StartsWith(routeFormat, "~/") ==> [ '~' ] + r == routeFormat
    ensures !StartsWith(routeFormat, "~/") ==> StartsWith(r, "/" + routePrefix + "/") && EndsWith(r, routeFormat)
    ensures StartsWith(r, "/")
  {
    if StartsWith(routeFormat, "~/") then routeFormat[1..] else "/" + routePrefix + "/" + routeFormat
  }

  /** The length of the run of word characters `s` starts with. */
  function WordRun(s: string): (n: nat)
    ensures n <= |s|
    ensures forall i :: 0 <= i < n ==> IsWordChar(s[i])
    ensures n < |s| ==> !IsWordChar(s[n])
    decreases |s|
  {
    if s != [] && IsWordChar(s[0]) then 1 + WordRun(s[1..]) else 0
  }

  /** The position of the first `}` in `s`, provided no line break comes before it. */
  function CloseOnLine(s: string): (r: Option<nat>)
    ensures r.Some? ==> r.value < |s| && s[r.value] == '}'
    ensures r.Some? ==> forall i :: 0 <= i < r.value ==> s[i] != '}' && s[i] != '\n'
    ensures r.None? ==> forall i :: 0 <= i < |s| && s[i] == '}' ==> exists j :: 0 <= j < i && s[j] == '\n'
    decreases |s|
  {
    if s == [] then None
    else if s[0] == '}' then Some(0)
    else if s[0] == '\n' then None
    else match CloseOnLine(s[1..])
      case None => None
      case Some(k) => Some(k + 1)
  }

  /** The placeholder `{(\w+)(:.*?)?}` matched at the start of `s`, if any: the parameter
      name and the length of the whole match. */
  function PlaceholderAt(s: string): (r: Option<(string, nat)>)
    ensures r.Some? ==> (0 < |r.value.0| && 1 + |r.value.0| < r.value.1 <= |s| && s[0] == '{' &&
                         s[1..1 + |r.value.0|] == r.value.0)
  {
    if s == [] || s[0] != '{' then None
    else
      var n := WordRun(s[1..]);
      if n == 0 || 1 + n == |s| then None
      else if s[1 + n] == '}' then Some((s[1..1 + n], n + 2))
      else if s[1 + n] == ':' then
        match CloseOnLine(s[2 + n..])
        case None => None
        case Some(k) => Some((s[1..1 + n], n + 3 + k))
      else None
  }

  /** The text that replaces a placeholder for the parameter `name`. */
  function ParameterText(name: string): string {
    "' + parameters." + name + " + '"
  }

  /** `Regex.Replace(route, @"{(\w+)(:.*?)?}", ...)`: scanning left to right, every
      placeholder is replaced by the parameter's text; other characters are kept. */
  function RewritePlaceholders(s: string): (r: string)
    decreases |s|
  {
    if s == [] then []
    else match PlaceholderAt(s)
      case Some((name, len)) => ParameterText(name) + RewritePlaceholders(s[len..])
      case None => [s[0]] + RewritePlaceholders(s[1..])
  }

  /** A text without `{` is left as it is. */
  lemma {:induction false} NoBraceUnchanged(s: string)
    requires '{' !in s
    ensures RewritePlaceholders(s) == s
    decreases |s|
  {
    if s != [] {
      assert s[0] != '{';
      NoBraceUnchanged(s[1..]);
    }
  }

  /** `{name}` becomes the parameter's text, whatever follows. */
  lemma PlainPlaceholder(name: string, rest: string)
    requires |name| > 0 && forall i :: 0 <= i < |name| ==> IsWordChar(name[i])
    ensures RewritePlaceholders("{" + name + "}" + rest) == ParameterText(name) + RewritePlaceholders(rest)
  {
    var s := "{" + name + "}" + rest;
    WordRunOf(name, "}" + rest);
    assert s[1..] == name + ("}" + rest);
    assert s[1 + |name|] == '}';
    assert s[1..1 + |name|] == name;
    assert s[|name| + 2..] == rest;
  }

  /** `{name:constraint}` becomes the parameter's text when the constraint has no `}` and
      no line break. */
  lemma ConstrainedPlaceholder(name: string, constraint: string, rest: string)
    requires |name| > 0 && forall i :: 0 <= i < |name| ==> IsWordChar(name[i])
    requires '}' !in constraint && '\n' !in constraint
    ensures RewritePlaceholders("{" + name + ":" + constraint + "}" + rest) ==
      ParameterText(name) + RewritePlaceholders(rest)
  {
    var s := "{" + name + ":" + constraint + "}" + rest;
    ConstrainedAt(name, constraint, rest);
    ReplacedAt(s);
    assert s[|name| + 3 + |constraint|..] == rest;
  }

  /** Where a placeholder starts, it is replaced and the scan resumes after it. */
  lemma ReplacedAt(s: string)
    requires PlaceholderAt(s).Some?
    ensures var (name, len) := PlaceholderAt(s).value;
      RewritePlaceholders(s) == ParameterText(name) + RewritePlaceholders(s[len..])
  {
  }

  /** Where no placeholder starts, the first character is kept. */
  lemma KeptAt(s: string)
    requires s != [] && PlaceholderAt(s).None?
    ensures RewritePlaceholders(s) == [s[0]] + RewritePlaceholders(s[1..])
  {
  }

  /** `{name:constraint}` is matched up to its closing brace. */
  lemma ConstrainedAt(name: string, constraint: string, rest: string)
    requires |name| > 0 && forall i :: 0 <= i < |name| ==> IsWordChar(name[i])
    requires '}' !in constraint && '\n' !in constraint
    ensures PlaceholderAt("{" + name + ":" + constraint + "}" + rest) == Some((name, |name| + 3 + |constraint|))
  {
    var s := "{" + name + ":" + constraint + "}" + rest;
    WordRunOf(name, ":" + constraint + "}" + rest);
    assert s[1..] == name + (":" + constraint + "}" + rest);
    assert s[1 + |name|] == ':';
    assert s[1..1 + |name|] == name;
    CloseAfter(constraint, rest);
    assert s[2 + |name|..] == constraint + "}" + rest;
  }

  /** `{name?}` (an optional parameter) is not a placeholder and is kept as it is. */
  lemma OptionalPlaceholderKept(name: string)
    requires |name| > 0 && forall i :: 0 <= i < |name| ==> IsWordChar(name[i])
    ensures RewritePlaceholders("{" + name + "?}") == "{" + name + "?}"
  {
    var s := ['{'] + name + "?}";
    NotPlaceholder(name, "?}");
    WordWithoutBrace(name, "?}");
    KeptWhole(s);
    assert "{" + name + "?}" == s;
  }

  /** A word followed by a text without `{` has no `{`. */
  lemma WordWithoutBrace(word: string, rest: string)
    requires forall i :: 0 <= i < |word| ==> IsWordChar(word[i])
    requires '{' !in rest
    ensures '{' !in (['{'] + word + rest)[1..]
  {
    var tail := (['{'] + word + rest)[1..];
    assert tail == word + rest;
    forall i | 0 <= i < |tail| ensures tail[i] != '{' {
      if i < |word| {
        assert IsWordChar(word[i]);
      } else {
        assert tail[i] == rest[i - |word|];
      }
    }
  }

  /** A text that starts no placeholder and has no `{` after its first character is kept. */
  lemma KeptWhole(s: string)
    requires s != [] && PlaceholderAt(s).None? && '{' !in s[1..]
    ensures RewritePlaceholders(s) == s
  {
    KeptAt(s);
    NoBraceUnchanged(s[1..]);
  }

  /** A brace, a word and then neither `}` nor `:` starts no placeholder. */
  lemma NotPlaceholder(name: string, rest: string)
    requires forall i :: 0 <= i < |name| ==> IsWordChar(name[i])
    requires rest != [] && !IsWordChar(rest[0]) && rest[0] != '}' && rest[0] != ':'
    ensures PlaceholderAt(['{'] + name + rest).None?
  {
    var s := ['{'] + name + rest;
    WordRunOf(name, rest);
    assert s[1..] == name + rest;
    assert s[1 + |name|] == rest[0];
  }

  /** The word run of a word followed by a non-word character is the word. */
  lemma {:induction false} WordRunOf(word: string, rest: string)
    requires forall i :: 0 <= i < |word| ==> IsWordChar(word[i])
    requires rest != [] && !IsWordChar(rest[0])
    ensures WordRun(word + rest) == |word|
    decreases |word|
  {
    if word != [] {
      assert (word + rest)[1..] == word[1..] + rest;
      WordRunOf(word[1..], rest);
    }
  }

  /** The first `}` after a text without braces or line breaks closes right after it. */
  lemma {:induction false} CloseAfter(constraint: string, rest: string)
    requires '}' !in constraint && '\n' !in constraint
    ensures CloseOnLine(constraint + "}" + rest) == Some(|constraint|)
    decreases |constraint|
  {
    if constraint != [] {
      assert (constraint + "}" + rest)[1..] == constraint[1..] + "}" + rest;
      assert constraint[0] in constraint;
      CloseAfter(constraint[1..], rest);
    }
  }

  /** The route text of an action, as it is placed between quotes in the client code. */
  function RouteString(routeFormat: string, routePrefix: string): string {
    RewritePlaceholders(ActionRoute(routeFormat, routePrefix))
  }
}
