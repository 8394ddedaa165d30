/** The text of the controller modules and the services module that the TypeScript writer
    emits (src/Folke.CsTsService/TypeScriptWriter.cs: `WriteAssembly`, `WriteController`,
    `WriteActions`, `WriteAction`). These are functions of the node graph. The writer's
    methods append exactly these texts, and the properties of the output are proved here. */
module ControllerText {
  import opened Wrappers
  import opened Text
  import opened Nodes
  import opened StringBuilders
  import opened StringHelpers
  import opened TypeScriptText
  import opened Ordering
  import opened Dictionaries

  // ----- The order of the actions and their method names (`WriteActions`)

  /** `OrderBy(x => x.Name).ThenBy(x => x.Parameters.Count)`. */
  function ActionKey(a: ActionNode): SortKey {
    SortKey(a.Name, |a.Parameters|)
  }

  /** The actions of a controller in the order `WriteActions` writes them. */
  function SortedActions(actions: seq<ActionNode>): seq<ActionNode> {
    SortBy(actions, ActionKey)
  }

  /** The actions come out ordered by name, then by number of parameters. None is lost or
      added. Overloads with the same number of parameters keep their declaration order. */
  lemma SortedActionsSpec(actions: seq<ActionNode>)
    ensures var r := SortedActions(actions);
      multiset(r) == multiset(actions) && |r| == |actions| &&
      (forall i, j :: 0 <= i < j < |r| ==>
         StringLess(r[i].Name, r[j].Name) || r[i].Name == r[j].Name) &&
      (forall i, j :: 0 <= i < j < |r| && r[i].Name == r[j].Name ==>
         |r[i].Parameters| <= |r[j].Parameters|) &&
      (forall k :: WithKey(r, ActionKey, k) == WithKey(actions, ActionKey, k))
  {
    var r := SortedActions(actions);
    SortBySpec(actions, ActionKey);
    assert |r| == |multiset(r)| == |multiset(actions)| == |actions|;
    forall i, j | 0 <= i < j < |r|
      ensures StringLess(r[i].Name, r[j].Name) || r[i].Name == r[j].Name
      ensures r[i].Name == r[j].Name ==> |r[i].Parameters| <= |r[j].Parameters|
    {
      assert !KeyLess(ActionKey(r[j]), ActionKey(r[i]));
      StringLessTotal(r[i].Name, r[j].Name);
    }
  }

  /** The number of actions named `name`. */
  function CountNamed(actions: seq<ActionNode>, name: string): nat
  {
    if actions == [] then 0
    else CountNamed(actions[..|actions| - 1], name) + (if actions[|actions| - 1].Name == name then 1 else 0)
  }

  /** `sameName.IndexOf(actionNode)`: the place of the `i`-th action among the actions with
      its name. Action nodes are objects, so `IndexOf` finds this very action. Its place is
      the number of actions with the same name before it. */
  function SameNameIndex(actions: seq<ActionNode>, i: nat): nat
    requires i < |actions|
  {
    CountNamed(actions[..i], actions[i].Name)
  }

  /** The method name of the `i`-th action: its camel-cased name. When several actions
      share the name, the 1-based place among them follows. */
  function MethodName(actions: seq<ActionNode>, i: nat): string
    requires i < |actions|
  {
    ToCamelCase(actions[i].Name) +
    (if CountNamed(actions, actions[i].Name) > 1 then IntToString(SameNameIndex(actions, i) + 1) else "")
  }

  /** A prefix of the actions counts no more than a longer one. */
  lemma {:induction false} CountNamedPrefix(actions: seq<ActionNode>, name: string, n: nat, m: nat)
    requires n <= m <= |actions|
    ensures CountNamed(actions[..n], name) <= CountNamed(actions[..m], name)
    decreases m
  {
    if n < m {
      assert actions[..m][..m - 1] == actions[..m - 1];
      CountNamedPrefix(actions, name, n, m - 1);
    }
  }

  /** The count of a prefix one longer. */
  lemma CountNamedSnoc(actions: seq<ActionNode>, name: string, i: nat)
    requires i < |actions|
    ensures CountNamed(actions[..i + 1], name) ==
            CountNamed(actions[..i], name) + (if actions[i].Name == name then 1 else 0)
  {
    assert actions[..i + 1][..i] == actions[..i];
  }

  /** Among the `k` actions sharing a name, the suffixes are 1 to `k`, increasing in the
      order of the actions. A name no other action has gets no suffix. */
  lemma {:induction false} MethodNameSuffixes(actions: seq<ActionNode>, i: nat, j: nat)
    requires i < j < |actions| && actions[i].Name == actions[j].Name
    ensures SameNameIndex(actions, i) < SameNameIndex(actions, j) < CountNamed(actions, actions[j].Name)
    ensures CountNamed(actions, actions[i].Name) > 1
  {
    var name := actions[i].Name;
    CountNamedSnoc(actions, name, i);
    assert CountNamed(actions[..i + 1], name) == SameNameIndex(actions, i) + 1;
    CountNamedPrefix(actions, name, i + 1, j);
    CountNamedSnoc(actions, name, j);
    assert CountNamed(actions[..j + 1], name) == SameNameIndex(actions, j) + 1;
    CountNamedPrefix(actions, name, j + 1, |actions|);
    assert actions[..|actions|] == actions;
  }

  /** An action whose name no other action has is named by its camel-cased name alone. */
  lemma UniqueNameNoSuffix(actions: seq<ActionNode>, i: nat)
    requires i < |actions|
    requires forall j :: 0 <= j < |actions| && j != i ==> actions[j].Name != actions[i].Name
    ensures MethodName(actions, i) == ToCamelCase(actions[i].Name)
  {
    var name := actions[i].Name;
    assert CountNamed(actions, name) == 1 by {
      CountOthers(actions, name, i, |actions|);
      assert actions[..|actions|] == actions;
    }
  }

  /** Counting in a prefix where only the `i`-th action has the name. */
  lemma {:induction false} CountOthers(actions: seq<ActionNode>, name: string, i: nat, n: nat)
    requires i < |actions| && n <= |actions| && actions[i].Name == name
    requires forall j :: 0 <= j < |actions| && j != i ==> actions[j].Name != name
    ensures CountNamed(actions[..n], name) == (if i < n then 1 else 0)
    decreases n
  {
    if n > 0 {
      CountOthers(actions, name, i, n - 1);
      CountNamedSnoc(actions, name, n - 1);
    }
  }

  /** Two actions with the same name get different method names. */
  lemma OverloadsDistinct(actions: seq<ActionNode>, i: nat, j: nat)
    requires i < j < |actions| && actions[i].Name == actions[j].Name
    ensures MethodName(actions, i) != MethodName(actions, j)
  {
    var camel := ToCamelCase(actions[i].Name);
    var ri := SameNameIndex(actions, i) + 1;
    var rj := SameNameIndex(actions, j) + 1;
    assert ri != rj && CountNamed(actions, actions[i].Name) > 1 by {
      MethodNameSuffixes(actions, i, j);
    }
    assert MethodName(actions, i) == camel + IntToString(ri) by {
      MethodNameNumbered(actions, i);
    }
    assert MethodName(actions, j) == camel + IntToString(rj) by {
      MethodNameNumbered(actions, j);
    }
    NumberedDistinct(camel, ri, rj);
  }

  /** The name of an action whose name is shared: the camel-cased name and its 1-based rank. */
  lemma MethodNameNumbered(actions: seq<ActionNode>, i: nat)
    requires i < |actions| && CountNamed(actions, actions[i].Name) > 1
    ensures MethodName(actions, i) == ToCamelCase(actions[i].Name) + IntToString(SameNameIndex(actions, i) + 1)
  {
  }

  /** A name numbered with two different counts gives two different texts. */
  lemma NumberedDistinct(p: string, a: nat, b: nat)
    requires a != b
    ensures p + IntToString(a) != p + IntToString(b)
  {
    IntToStringRoundTrip(a);
    IntToStringRoundTrip(b);
    assert (p + IntToString(a))[|p|..] == IntToString(a);
    assert (p + IntToString(b))[|p|..] == IntToString(b);
  }

  /** The suffix does not keep method names apart across names. An overloaded `Item`
      (already in sorted order here) takes `item1` and `item2`, and an action named `Item1`
      is also `item1`. */
  lemma SuffixClash()
    ensures var id := ParameterNode("id", None, true, None, None, NoFormat, None, None, None,
                                    NewTypeNode(Int, null, false), false, false, Query);
      var actions := [ActionNode(None, Get, "Item", "item", None, None, [], None),
                      ActionNode(None, Get, "Item", "item", None, None, [id], None),
                      ActionNode(None, Get, "Item1", "item1", None, None, [], None)];
      MethodName(actions, 0) == MethodName(actions, 2) == "item1"
  {
    var id := ParameterNode("id", None, true, None, None, NoFormat, None, None, None,
                            NewTypeNode(Int, null, false), false, false, Query);
    var actions := [ActionNode(None, Get, "Item", "item", None, None, [], None),
                    ActionNode(None, Get, "Item", "item", None, None, [id], None),
                    ActionNode(None, Get, "Item1", "item1", None, None, [], None)];
    assert actions[..2][..1] == actions[..1] && actions[..1][..0] == [];
    assert actions[..1] == [actions[0]];
    assert CountNamed(actions[..1], "Item") == 1 && CountNamed(actions[..1], "Item1") == 0;
    assert CountNamed(actions[..2], "Item") == 2 && CountNamed(actions[..2], "Item1") == 0;
    assert actions[..|actions| - 1] == actions[..2];
    assert CountNamed(actions, "Item") == 2;
    assert CountNamed(actions, "Item1") == 1;
    assert IntToString(1) == "1";
  }

  // ----- The parts of one action (`WriteAction`)

  /** Every type an action's parameters and return value name can be followed in the graph. */
  ghost predicate ParametersInGraph(g: Graph, ps: seq<ParameterNode>) {
    forall i :: 0 <= i < |ps| ==> TypeInGraph(g, ps[i].Type)
  }

  ghost predicate ActionInGraph(g: Graph, a: ActionNode) {
    ParametersInGraph(g, a.Parameters) && (a.Return.Some? ==> TypeInGraph(g, a.Return.value.Type))
  }

  /** A type the knockout client receives as an observable: an Object type whose class is
      observable, in knockout mode. */
  predicate Observed(t: TypeNode, knockout: bool) {
    t.Type == Object && t.Class != null && t.Class.IsObservable && knockout
  }

  /** The action, one of its parameters or its return value has a non-empty
      documentation. */
  predicate HasDocumentation(a: ActionNode) {
    !IsNullOrEmpty(a.Documentation) ||
    (exists i | 0 <= i < |a.Parameters| :: !IsNullOrEmpty(a.Parameters[i].Documentation)) ||
    (a.Return.Some? && !IsNullOrEmpty(a.Return.value.Documentation))
  }

  /** The `@param` lines of the parameters, in order. */
  function ParameterDocsText(ps: seq<ParameterNode>): string {
    if ps == [] then ""
    else
      var p := ps[|ps| - 1];
      ParameterDocsText(ps[..|ps| - 1]) + DocText(p.Documentation, Some("@param " + p.Name))
  }

  /** The `@return` line. */
  function ReturnDocText(r: Option<ReturnNode>): string {
    if r.Some? then DocText(r.value.Documentation, Some("@return")) else ""
  }

  /** The lines of the doc block between its opening and closing lines. */
  function DocLinesText(a: ActionNode): string {
    DocText(a.Documentation, None) + ParameterDocsText(a.Parameters) + ReturnDocText(a.Return)
  }

  /** The doc block of an action, written when there is some documentation to put in it. */
  function DocBlockText(a: ActionNode): string {
    if HasDocumentation(a) then Tab + "/**" + NewLine + DocLinesText(a) + (Tab + " */") + NewLine else ""
  }

  /** The parameters' lines are empty exactly when no parameter has documentation. */
  lemma {:induction false} ParameterDocsEmpty(ps: seq<ParameterNode>)
    ensures ParameterDocsText(ps) == "" <==>
            forall i :: 0 <= i < |ps| ==> IsNullOrEmpty(ps[i].Documentation)
  {
    if ps != [] {
      var init := ps[..|ps| - 1];
      ParameterDocsEmpty(init);
      var p := ps[|ps| - 1];
      DocTextShape(p.Documentation, Some("@param " + p.Name));
      assert forall i :: 0 <= i < |init| ==> init[i] == ps[i];
    }
  }

  /** A doc block is written exactly when it has a line in it: never an empty one. */
  lemma DocBlockNeverEmpty(a: ActionNode)
    ensures DocBlockText(a) == "" <==> !HasDocumentation(a)
    ensures HasDocumentation(a) <==> DocLinesText(a) != ""
  {
    ParameterDocsEmpty(a.Parameters);
    DocTextShape(a.Documentation, None);
    if a.Return.Some? {
      DocTextShape(a.Return.value.Documentation, Some("@return"));
    }
  }

  /** One parameter of the signature: its name, `?` unless required, and its type written
      in edition mode, as an observable in knockout mode. */
  function ParameterText(g: Graph, p: ParameterNode, knockout: bool, prefix: PrefixModules,
                         edit: set<ClassNode>): string
    requires TypeInGraph(g, p.Type)
  {
    p.Name + (if p.IsRequired then "" else "?") + ": " + TypeText(g, p.Type, true, knockout, false, prefix, edit)
  }

  /** The texts of the parameters, in order. */
  function ParameterTexts(g: Graph, ps: seq<ParameterNode>, knockout: bool, prefix: PrefixModules,
                          edit: set<ClassNode>): (r: seq<string>)
    requires ParametersInGraph(g, ps)
    ensures |r| == |ps|
  {
    if ps == [] then []
    else ParameterTexts(g, ps[..|ps| - 1], knockout, prefix, edit) +
         [ParameterText(g, ps[|ps| - 1], knockout, prefix, edit)]
  }

  /** Each parameter is written as itself, in order. */
  lemma {:induction false} ParameterTextsItems(g: Graph, ps: seq<ParameterNode>, knockout: bool,
                                               prefix: PrefixModules, edit: set<ClassNode>)
    requires ParametersInGraph(g, ps)
    ensures forall i :: 0 <= i < |ps| ==>
      ParameterTexts(g, ps, knockout, prefix, edit)[i] == ParameterText(g, ps[i], knockout, prefix, edit)
    ensures forall i :: 0 <= i < |ps| ==>
      ParameterTexts(g, ps, knockout, prefix, edit)[i] ==
        ps[i].Name + (if ps[i].IsRequired then "" else "?") + ": " +
        TypeText(g, ps[i].Type, true, knockout, false, prefix, edit)
    decreases |ps|
  {
    if ps != [] {
      var init := ps[..|ps| - 1];
      ParameterTextsItems(g, init, knockout, prefix, edit);
      assert forall i :: 0 <= i < |init| ==> init[i] == ps[i];
    }
  }

  /** The first line of the method: its name and its `params` object type. */
  function SignatureText(g: Graph, name: string, a: ActionNode, knockout: bool, prefix: PrefixModules,
                         edit: set<ClassNode>): string
    requires ParametersInGraph(g, a.Parameters)
  {
    Tab + name + "(params: {" + Join(", ", ParameterTexts(g, a.Parameters, knockout, prefix, edit)) +
    "}" + ") {" + NewLine
  }

  /** The type arguments of the fetch helper: `string, Date` for a date, otherwise the view
      type and, for an observable, the knockout type as well. */
  function ReturnTypeArguments(g: Graph, t: TypeNode, knockout: bool, prefix: PrefixModules): string
    requires TypeInGraph(g, t)
  {
    if t.Type == DateTime then "string, Date"
    else
      TypeText(g, t, false, false, true, prefix, {}) +
      (if Observed(t, knockout) then ", " + TypeText(g, t, false, true, true, prefix, {}) else "")
  }

  /** The name and type arguments of the fetch helper after `helpers.fetch`. */
  function FetchText(g: Graph, r: Option<ReturnNode>, knockout: bool, prefix: PrefixModules): string
    requires r.Some? ==> TypeInGraph(g, r.value.Type)
  {
    if r.None? then "Void"
    else
      var t := r.value.Type;
      var kind := if t.IsCollection() then "List" else "Single";
      var marker := if Observed(t, knockout) || t.Type == DateTime then "T" else "";
      kind + (marker + "<" + ReturnTypeArguments(g, t, knockout, prefix) + ">")
  }

  /** The fetch helper is `fetchVoid` without a return value. Otherwise it is `fetchList`
      for a collection and `fetchSingle` for anything else. The `T` variants are used for
      the results that get converted. */
  lemma FetchHelperChoice(g: Graph, r: Option<ReturnNode>, knockout: bool, prefix: PrefixModules)
    requires r.Some? ==> TypeInGraph(g, r.value.Type)
    ensures var f := FetchText(g, r, knockout, prefix);
      (f == "Void" <==> r.None?) &&
      (StartsWith(f, "List") <==> r.Some? && r.value.Type.IsCollection()) &&
      (StartsWith(f, "Single") <==> r.Some? && !r.value.Type.IsCollection()) &&
      (r.Some? ==> var k := if r.value.Type.IsCollection() then 4 else 6;
         k < |f| && (f[k] == 'T' <==> Observed(r.value.Type, knockout) || r.value.Type.Type == DateTime))
  {
    var f := FetchText(g, r, knockout, prefix);
    if r.Some? {
      var t := r.value.Type;
      var kind := if t.IsCollection() then "List" else "Single";
      var marker := if Observed(t, knockout) || t.Type == DateTime then "T" else "";
      var tail := marker + "<" + ReturnTypeArguments(g, t, knockout, prefix) + ">";
      FetchKindPrefix(kind, tail);
      assert tail[0] == 'T' <==> marker == "T";
    } else {
      assert f[0] == 'V';
    }
  }

  /** A fetch helper name made of `List` or `Single` and a non-empty tail starts with
      exactly one of the two, is not `Void`, and has the tail right after its kind. */
  lemma FetchKindPrefix(kind: string, tail: string)
    requires kind == "List" || kind == "Single"
    requires tail != []
    ensures StartsWith(kind + tail, "List") <==> kind == "List"
    ensures StartsWith(kind + tail, "Single") <==> kind == "Single"
    ensures kind + tail != "Void"
    ensures |kind| < |kind + tail| && (kind + tail)[|kind|] == tail[0]
  {
    var f := kind + tail;
    assert f[..|kind|] == kind;
    assert f[0] == kind[0];
  }

  /** Some parameter is bound at `position`. */
  predicate HasPosition(ps: seq<ParameterNode>, position: ParameterPosition) {
    exists i | 0 <= i < |ps| :: ps[i].Position == position
  }

  /** The route as a template literal: `{` opens a `${params.` substitution and every `?`
      is dropped. */
  function PathRoute(route: string): string {
    ReplaceAll(ReplaceAll(route, "{", "${params."), "?", "")
  }

  /** The route argument: a template literal when a parameter is bound to the path, a plain
      string literal otherwise. */
  function RouteText(a: ActionNode): string {
    if HasPosition(a.Parameters, Path) then "(`" + PathRoute(a.Route) + "`"
    else "(\"" + a.Route + "\""
  }

  /** The route template rewritten character by character: the reference for `PathRoute`. */
  function Templated(route: string): string {
    if route == [] then []
    else (if route[0] == '{' then "${params." else if route[0] == '?' then "" else [route[0]]) +
         Templated(route[1..])
  }

  /** Replacing a character distributes over concatenation. */
  lemma {:induction false} ReplaceCharAppend(a: string, b: string, c: char, to: string)
    ensures ReplaceAll(a + b, [c], to) == ReplaceAll(a, [c], to) + ReplaceAll(b, [c], to)
    decreases |a|
  {
    if a == [] {
      assert a + b == b;
    } else {
      ReplaceCharAppend(a[1..], b, c, to);
      assert (a + b)[1..] == a[1..] + b;
      assert (a + b)[..1] == a[..1];
      assert (a + b)[0] == a[0];
    }
  }

  /** A text without the character is left as it is. */
  lemma {:induction false} ReplaceCharAbsent(s: string, c: char, to: string)
    requires c !in s
    ensures ReplaceAll(s, [c], to) == s
    decreases |s|
  {
    if s != [] {
      ReplaceCharAbsent(s[1..], c, to);
      assert s[..1] == [s[0]];
    }
  }

  /** The two replacements of `PathRoute` rewrite each character on its own. */
  lemma {:induction false} PathRouteCharwise(route: string)
    ensures PathRoute(route) == Templated(route)
    decreases |route|
  {
    if route != [] {
      PathRouteCharwise(route[1..]);
      var rest := ReplaceAll(route[1..], "{", "${params.");
      var piece := if route[0] == '{' then "${params." else [route[0]];
      assert route[..1] == [route[0]];
      assert ReplaceAll(route, "{", "${params.") == piece + rest;
      ReplaceCharAppend(piece, rest, '?', "");
      if route[0] == '{' {
        ReplaceCharAbsent(piece, '?', "");
      } else if route[0] == '?' {
        assert piece[..1] == "?";
      } else {
        ReplaceCharAbsent(piece, '?', "");
      }
    }
  }

  /** A templated route has no `?` left. A route without `{` and `?` is kept as it is. */
  lemma {:induction false} TemplatedSpec(route: string)
    ensures '?' !in Templated(route)
    ensures (forall i :: 0 <= i < |route| ==> route[i] != '{' && route[i] != '?') ==> Templated(route) == route
    decreases |route|
  {
    if route != [] {
      TemplatedSpec(route[1..]);
      assert route == [route[0]] + route[1..];
    }
  }

  /** For example, an optional placeholder becomes a plain substitution. */
  lemma PathRouteExample()
    ensures PathRoute("{id?}") == "${params.id}"
  {
    PathRouteCharwise("{id?}");
    TemplatedExample();
  }

  lemma TemplatedExample()
    ensures Templated("{id?}") == "${params.id}"
  {
    var r := "{id?}";
    assert Templated(r[4..]) == "}";
    assert Templated(r[3..]) == "}";
    assert Templated(r[2..]) == "d}";
    assert Templated(r[1..]) == "id}";
  }

  /** One entry of the query object: the parameter's value, as an ISO string for a date. */
  function QueryEntry(p: ParameterNode): string {
    p.Name + ": params." + p.Name +
    (if p.Type.Type == DateTime then " && params." + p.Name + ".toISOString()" else "")
  }

  /** The entries of the query parameters, in order. */
  function QueryEntries(ps: seq<ParameterNode>): seq<string> {
    if ps == [] then []
    else
      var p := ps[|ps| - 1];
      QueryEntries(ps[..|ps| - 1]) + (if p.Position == Query then [QueryEntry(p)] else [])
  }

  /** The query string added to the route, when some parameter is bound to the query. */
  function QueryText(a: ActionNode): string {
    if HasPosition(a.Parameters, Query) then
      " + helpers.getQueryString({ " + Join(", ", QueryEntries(a.Parameters)) + " })"
    else ""
  }

  /** There is one query entry per query parameter, and none without one. */
  lemma {:induction false} QueryEntriesSpec(ps: seq<ParameterNode>)
    ensures |QueryEntries(ps)| == |set i | 0 <= i < |ps| && ps[i].Position == Query|
    ensures QueryEntries(ps) == [] <==> !HasPosition(ps, Query)
  {
    if ps != [] {
      var init := ps[..|ps| - 1];
      QueryEntriesSpec(init);
      QueryIndicesSnoc(ps);
      var n := |ps| - 1;
      assert HasPosition(init, Query) ==> HasPosition(ps, Query);
      assert HasPosition(ps, Query) && ps[n].Position != Query ==> HasPosition(init, Query);
    }
  }

  /** The query parameters of `ps` are those of all but its last one, and the last one
      when it is bound to the query. */
  lemma QueryIndicesSnoc(ps: seq<ParameterNode>)
    requires ps != []
    ensures var n := |ps| - 1;
      |set i | 0 <= i < |ps| && ps[i].Position == Query| ==
      |set i | 0 <= i < n && ps[..n][i].Position == Query| + (if ps[n].Position == Query then 1 else 0)
  {
    var n := |ps| - 1;
    var before := set i | 0 <= i < n && ps[..n][i].Position == Query;
    var all := set i | 0 <= i < |ps| && ps[i].Position == Query;
    assert all == before + (if ps[n].Position == Query then {n} else {});
  }

  /** The HTTP verb's name. */
  function VerbText(m: ActionMethod): string {
    match m
    case Delete => "DELETE"
    case Get => "GET"
    case Post => "POST"
    case Put => "PUT"
  }

  /** Reading a verb's name back, as the server does. */
  function ParseVerb(s: string): Option<ActionMethod> {
    if s == "DELETE" then Some(Delete)
    else if s == "GET" then Some(Get)
    else if s == "POST" then Some(Post)
    else if s == "PUT" then Some(Put)
    else None
  }

  /** Each verb is written under a name that reads back as that verb. */
  lemma VerbRoundTrip(m: ActionMethod)
    ensures ParseVerb(VerbText(m)) == Some(m)
  {
  }

  /** The conversion of the response: dates are parsed, and in knockout mode an observable
      view is wrapped in its knockout class. Nothing otherwise. */
  function ConverterText(r: Option<ReturnNode>, knockout: bool): string {
    if r.None? then ""
    else if r.value.Type.Type == DateTime then ", view => new Date(view)"
    else if Observed(r.value.Type, knockout) then
      ", view => new koViews." + r.value.Type.Class.KoName.GetOr("") + "(view)"
    else ""
  }

  /** `FirstOrDefault(x => x.Position == Body)`: the place of the first parameter bound to
      the body. */
  function FirstBody(ps: seq<ParameterNode>): Option<nat> {
    if ps == [] then None
    else if ps[0].Position == Body then Some(0)
    else match FirstBody(ps[1..])
      case None => None
      case Some(i) => Some(i + 1)
  }

  /** `FirstBody` finds a body parameter exactly when there is one, and then the first. */
  lemma {:induction false} FirstBodySpec(ps: seq<ParameterNode>)
    ensures FirstBody(ps).None? <==> !HasPosition(ps, Body)
    ensures FirstBody(ps).Some? ==>
      var i := FirstBody(ps).value;
      i < |ps| && ps[i].Position == Body && forall j :: 0 <= j < i ==> ps[j].Position != Body
  {
    if ps != [] && ps[0].Position != Body {
      FirstBodySpec(ps[1..]);
      assert HasPosition(ps[1..], Body) ==> HasPosition(ps, Body) by {
        if HasPosition(ps[1..], Body) {
          var k :| 0 <= k < |ps[1..]| && ps[1..][k].Position == Body;
          assert ps[k + 1].Position == Body;
        }
      }
      assert HasPosition(ps, Body) ==> HasPosition(ps[1..], Body) by {
        if HasPosition(ps, Body) {
          var k :| 0 <= k < |ps| && ps[k].Position == Body;
          assert ps[1..][k - 1].Position == Body;
        }
      }
      if FirstBody(ps).Some? {
        var i := FirstBody(ps).value;
        forall j | 0 <= j < i ensures ps[j].Position != Body {
          if j > 0 {
            assert ps[j] == ps[1..][j - 1];
          }
        }
      }
    }
  }

  /** The request body: the first body parameter serialised, converted back from knockout
      for an observable, or `null`. */
  function BodyText(ps: seq<ParameterNode>, knockout: bool): string {
    match FirstBody(ps)
    case None => ", null"
    case Some(i) =>
      if i < |ps| then
        ", JSON.stringify(params." + ps[i].Name + (if Observed(ps[i].Type, knockout) then ".toJs()" else "") + ")"
      else ""
  }

  /** Only the first body parameter is sent: more body parameters after it change nothing.
      Without one, the body is `null`. */
  lemma BodyFromFirst(ps: seq<ParameterNode>, more: seq<ParameterNode>, knockout: bool)
    ensures BodyText(ps, knockout) == ", null" <==> !HasPosition(ps, Body)
    ensures HasPosition(ps, Body) ==> BodyText(ps + more, knockout) == BodyText(ps, knockout)
  {
    FirstBodySpec(ps);
    FirstBodyPrefix(ps, more);
  }

  /** A body parameter in the prefix is found there. */
  lemma {:induction false} FirstBodyPrefix(ps: seq<ParameterNode>, more: seq<ParameterNode>)
    ensures FirstBody(ps).Some? ==> FirstBody(ps + more) == FirstBody(ps)
  {
    if ps != [] && ps[0].Position != Body {
      FirstBodyPrefix(ps[1..], more);
      assert (ps + more)[1..] == ps[1..] + more;
    }
  }

  /** The arguments of the fetch helper after the URL: the verb, the conversion and the
      body. */
  function ArgumentsText(a: ActionNode, knockout: bool): string {
    ", \"" + VerbText(a.Type) + "\"" + ConverterText(a.Return, knockout) + BodyText(a.Parameters, knockout)
  }

  /** The call after the fetch helper's name, and the end of the method. */
  function RequestText(a: ActionNode, knockout: bool): string {
    RouteText(a) + QueryText(a) + ArgumentsText(a, knockout) + ");" + NewLine + (Tab + "}") + NewLine
  }

  /** The `return helpers.fetch…;` statement and the end of the method. */
  function CallText(g: Graph, a: ActionNode, knockout: bool, prefix: PrefixModules): string
    requires a.Return.Some? ==> TypeInGraph(g, a.Return.value.Type)
  {
    Tab + Tab + "return helpers.fetch" + FetchText(g, a.Return, knockout, prefix) + RequestText(a, knockout)
  }

  /** `WriteAction`: an empty line, the doc block, the signature and the call. */
  function ActionText(g: Graph, name: string, a: ActionNode, knockout: bool, prefix: PrefixModules,
                      edit: set<ClassNode>): string
    requires ActionInGraph(g, a)
  {
    NewLine + DocBlockText(a) + SignatureText(g, name, a, knockout, prefix, edit) + CallText(g, a, knockout, prefix)
  }

  // ----- What an action makes use of

  /** The classes the parameters' types refer to as Object types. */
  ghost function ParametersClasses(g: Graph, ps: seq<ParameterNode>): set<ClassNode>
    requires ParametersInGraph(g, ps)
  {
    if ps == [] then {}
    else ParametersClasses(g, ps[..|ps| - 1]) + ObjectClasses(g, ps[|ps| - 1].Type)
  }

  /** Some parameter's type makes use of the `views` module. */
  ghost predicate ParametersUseViews(g: Graph, ps: seq<ParameterNode>, knockout: bool)
    requires ParametersInGraph(g, ps)
  {
    ps != [] && (ParametersUseViews(g, ps[..|ps| - 1], knockout) || UsesViews(g, ps[|ps| - 1].Type, knockout))
  }

  /** Some parameter's type makes use of the `koViews` module. */
  ghost predicate ParametersUseKoViews(g: Graph, ps: seq<ParameterNode>, knockout: bool)
    requires ParametersInGraph(g, ps)
  {
    ps != [] && (ParametersUseKoViews(g, ps[..|ps| - 1], knockout) || UsesKoViews(g, ps[|ps| - 1].Type, knockout))
  }

  /** The return type's texts make use of the `views` module. */
  ghost predicate ReturnUsesViews(g: Graph, r: Option<ReturnNode>, knockout: bool)
    requires r.Some? ==> TypeInGraph(g, r.value.Type)
  {
    r.Some? && r.value.Type.Type != DateTime &&
    (UsesViews(g, r.value.Type, false) || (Observed(r.value.Type, knockout) && UsesViews(g, r.value.Type, true)))
  }

  /** The return type's texts make use of the `koViews` module. */
  ghost predicate ReturnUsesKoViews(g: Graph, r: Option<ReturnNode>, knockout: bool)
    requires r.Some? ==> TypeInGraph(g, r.value.Type)
  {
    r.Some? && r.value.Type.Type != DateTime &&
    (UsesKoViews(g, r.value.Type, false) || (Observed(r.value.Type, knockout) && UsesKoViews(g, r.value.Type, true)))
  }

  /** The response is converted to a knockout class, which needs `koViews` whatever the
      prefixes. */
  predicate ConvertsToKo(r: Option<ReturnNode>, knockout: bool) {
    r.Some? && r.value.Type.Type != DateTime && Observed(r.value.Type, knockout)
  }

  ghost predicate ActionUsesViews(g: Graph, a: ActionNode, knockout: bool)
    requires ActionInGraph(g, a)
  {
    ParametersUseViews(g, a.Parameters, knockout) || ReturnUsesViews(g, a.Return, knockout)
  }

  ghost predicate ActionUsesKoViews(g: Graph, a: ActionNode, knockout: bool)
    requires ActionInGraph(g, a)
  {
    ParametersUseKoViews(g, a.Parameters, knockout) || ReturnUsesKoViews(g, a.Return, knockout)
  }

  /** The parameters' texts depend on `edit` only through their classes. */
  lemma {:induction false} ParameterTextsAgree(g: Graph, ps: seq<ParameterNode>, knockout: bool,
      prefix: PrefixModules, e1: set<ClassNode>, e2: set<ClassNode>)
    requires ParametersInGraph(g, ps)
    requires forall c :: c in ParametersClasses(g, ps) ==> (c in e1 <==> c in e2)
    ensures ParameterTexts(g, ps, knockout, prefix, e1) == ParameterTexts(g, ps, knockout, prefix, e2)
  {
    if ps != [] {
      ParameterTextsAgree(g, ps[..|ps| - 1], knockout, prefix, e1, e2);
      TypeTextAgree(g, ps[|ps| - 1].Type, true, knockout, false, prefix, e1, e2);
    }
  }

  /** One more parameter adds its text, its classes and its module uses. */
  lemma ParametersSnoc(g: Graph, ps: seq<ParameterNode>, i: nat, knockout: bool, prefix: PrefixModules,
                       edit: set<ClassNode>)
    requires ParametersInGraph(g, ps) && i < |ps|
    ensures ParameterTexts(g, ps[..i + 1], knockout, prefix, edit) ==
      ParameterTexts(g, ps[..i], knockout, prefix, edit) + [ParameterText(g, ps[i], knockout, prefix, edit)]
    ensures ParametersClasses(g, ps[..i + 1]) == ParametersClasses(g, ps[..i]) + ObjectClasses(g, ps[i].Type)
    ensures ParametersUseViews(g, ps[..i + 1], knockout) ==
      (ParametersUseViews(g, ps[..i], knockout) || UsesViews(g, ps[i].Type, knockout))
    ensures ParametersUseKoViews(g, ps[..i + 1], knockout) ==
      (ParametersUseKoViews(g, ps[..i], knockout) || UsesKoViews(g, ps[i].Type, knockout))
  {
    assert ps[..i + 1][..i] == ps[..i];
  }

  /** An action's text depends on `edit` only through its parameters' classes: the return
      type is written out of edition mode. */
  lemma ActionTextAgree(g: Graph, name: string, a: ActionNode, knockout: bool, prefix: PrefixModules,
                        e1: set<ClassNode>, e2: set<ClassNode>)
    requires ActionInGraph(g, a)
    requires forall c :: c in ParametersClasses(g, a.Parameters) ==> (c in e1 <==> c in e2)
    ensures ActionText(g, name, a, knockout, prefix, e1) == ActionText(g, name, a, knockout, prefix, e2)
  {
    ParameterTextsAgree(g, a.Parameters, knockout, prefix, e1, e2);
  }

  // ----- The actions of a controller

  /** Every action of the list can be followed in the graph. */
  ghost predicate ActionsInGraph(g: Graph, actions: seq<ActionNode>) {
    forall i :: 0 <= i < |actions| ==> ActionInGraph(g, actions[i])
  }

  /** The first `n` actions of the ordered list, each under its method name. */
  function ActionsText(g: Graph, actions: seq<ActionNode>, n: nat, knockout: bool, prefix: PrefixModules,
                       edit: set<ClassNode>): string
    requires n <= |actions| && ActionsInGraph(g, actions)
  {
    if n == 0 then ""
    else ActionsText(g, actions, n - 1, knockout, prefix, edit) +
         ActionText(g, MethodName(actions, n - 1), actions[n - 1], knockout, prefix, edit)
  }

  ghost function ActionsClasses(g: Graph, actions: seq<ActionNode>, n: nat): set<ClassNode>
    requires n <= |actions| && ActionsInGraph(g, actions)
  {
    if n == 0 then {} else ActionsClasses(g, actions, n - 1) + ParametersClasses(g, actions[n - 1].Parameters)
  }

  ghost predicate ActionsUseViews(g: Graph, actions: seq<ActionNode>, n: nat, knockout: bool)
    requires n <= |actions| && ActionsInGraph(g, actions)
  {
    n > 0 && (ActionsUseViews(g, actions, n - 1, knockout) || ActionUsesViews(g, actions[n - 1], knockout))
  }

  ghost predicate ActionsUseKoViews(g: Graph, actions: seq<ActionNode>, n: nat, knockout: bool)
    requires n <= |actions| && ActionsInGraph(g, actions)
  {
    n > 0 && (ActionsUseKoViews(g, actions, n - 1, knockout) || ActionUsesKoViews(g, actions[n - 1], knockout))
  }

  predicate ActionsConvertToKo(actions: seq<ActionNode>, n: nat, knockout: bool)
    requires n <= |actions|
  {
    n > 0 && (ActionsConvertToKo(actions, n - 1, knockout) || ConvertsToKo(actions[n - 1].Return, knockout))
  }

  /** The actions' text depends on `edit` only through their parameters' classes. */
  lemma {:induction false} ActionsTextAgree(g: Graph, actions: seq<ActionNode>, n: nat, knockout: bool,
      prefix: PrefixModules, e1: set<ClassNode>, e2: set<ClassNode>)
    requires n <= |actions| && ActionsInGraph(g, actions)
    requires forall c :: c in ActionsClasses(g, actions, n) ==> (c in e1 <==> c in e2)
    ensures ActionsText(g, actions, n, knockout, prefix, e1) == ActionsText(g, actions, n, knockout, prefix, e2)
  {
    if n > 0 {
      ActionsTextAgree(g, actions, n - 1, knockout, prefix, e1, e2);
      ActionTextAgree(g, MethodName(actions, n - 1), actions[n - 1], knockout, prefix, e1, e2);
    }
  }

  // ----- Controller modules (`WriteController`)

  /** Every action of the controller can be followed in the graph, in the order the
      controller writes them. */
  ghost predicate ControllerInGraph(g: Graph, c: ActionsGroupNode) {
    ActionsInGraph(g, SortedActions(c.Actions))
  }

  /** Sorting keeps the actions' types in the graph. */
  lemma SortedInGraph(g: Graph, actions: seq<ActionNode>)
    requires ActionsInGraph(g, actions)
    ensures ActionsInGraph(g, SortedActions(actions))
  {
    var r := SortedActions(actions);
    SortBySpec(actions, ActionKey);
    forall i | 0 <= i < |r| ensures ActionInGraph(g, r[i]) {
      assert r[i] in multiset(actions);
    }
  }

  /** The class of a controller and its ordered actions. */
  function ControllerBodyText(g: Graph, c: ActionsGroupNode, knockout: bool, edit: set<ClassNode>): string
    requires ControllerInGraph(g, c)
  {
    var actions := SortedActions(c.Actions);
    DocText(c.Documentation, None) + ("export class " + c.Name + "Controller {") + NewLine +
    ActionsText(g, actions, |actions|, knockout, AllPrefixes, edit) + "}" + NewLine + NewLine
  }

  const GeneratedHeader: string := "/* This is a generated file. Do not modify or all the changes will be lost. */"

  /** The imports of the `views` and `koViews` modules the controller makes use of. In
      knockout mode the views module is one directory up. */
  function ControllerImportsText(knockout: bool, views: bool, koViews: bool): string {
    if knockout then
      (if views then "import * as views from \"../views\";" + NewLine else "") +
      (if koViews then "import * as koViews from \"./views\";" + NewLine else "")
    else if views then "import * as views from \"./views\";" + NewLine
    else ""
  }

  /** The head of a controller module: the header, the helpers import, the imports it
      needs and an empty line. */
  function ControllerHeadText(helpers: string, knockout: bool, views: bool, koViews: bool): string {
    GeneratedHeader + NewLine + ("import * as helpers from \"" + helpers + "\";") + NewLine +
    ControllerImportsText(knockout, views, koViews) + NewLine
  }

  /** The text of a controller module: its head, then the class. */
  function ControllerModuleText(helpers: string, knockout: bool, views: bool, koViews: bool, body: string): string {
    ControllerHeadText(helpers, knockout, views, koViews) + body
  }

  /** The key of a controller's module. */
  function ControllerKey(c: ActionsGroupNode, knockout: bool): string {
    (if knockout then "ko/" else "") + ToCamelCase(c.Name)
  }

  /** Outside knockout mode a controller module never imports `koViews`. In knockout mode
      it imports each module exactly when its flag says so. */
  lemma ControllerImports(views: bool, koViews: bool)
    ensures ControllerImportsText(false, views, koViews) ==
            (if views then "import * as views from \"./views\";" + NewLine else "")
    ensures ControllerImportsText(true, views, koViews) == "" <==> !views && !koViews
  {
  }

  /** Two controllers get the same module key exactly when their names differ at most in
      the case of their first letter. */
  lemma ControllerKeyClash(a: ActionsGroupNode, b: ActionsGroupNode, knockout: bool)
    ensures ControllerKey(a, knockout) == ControllerKey(b, knockout) <==>
      |a.Name| == |b.Name| && (a.Name != [] ==> a.Name[1..] == b.Name[1..] && ToLower(a.Name[0]) == ToLower(b.Name[0]))
  {
    var p := if knockout then "ko/" else "";
    if ControllerKey(a, knockout) == ControllerKey(b, knockout) {
      assert (p + ToCamelCase(a.Name))[|p|..] == ToCamelCase(a.Name);
      assert (p + ToCamelCase(b.Name))[|p|..] == ToCamelCase(b.Name);
      CamelCaseCollisions(a.Name, b.Name);
    }
  }

  // ----- The views and services modules (`WriteViews`, `WriteAssembly`)

  /** Every class of the assembly's types can be written. */
  ghost predicate TypesInGraph(g: Graph, types: seq<TypeEntry>) {
    forall i :: 0 <= i < |types| ==> DefinitionInGraph(g, types[i].Value)
  }

  /** `WriteViews`: the definitions of the assembly's types, in order, out of edition mode. */
  function ViewsText(g: Graph, types: seq<TypeEntry>): string
    requires TypesInGraph(g, types)
  {
    if types == [] then ""
    else ViewsText(g, types[..|types| - 1]) + TypeDefinitionText(g, types[|types| - 1].Value, false, NoPrefix, {})
  }

  /** One more type: its definition follows those of the types before it. */
  lemma ViewsTextNext(g: Graph, types: seq<TypeEntry>, i: nat)
    requires TypesInGraph(g, types) && i < |types|
    ensures TypesInGraph(g, types[..i]) && TypesInGraph(g, types[..i + 1])
    ensures ViewsText(g, types[..i + 1]) ==
      ViewsText(g, types[..i]) + TypeDefinitionText(g, types[i].Value, false, NoPrefix, {})
  {
    assert types[..i + 1][..i] == types[..i];
  }

  /** `OrderBy(x => x.Name)` on the controllers. */
  function ControllerOrderKey(c: ActionsGroupNode): SortKey {
    SortKey(c.Name, 0)
  }

  function SortedControllers(cs: seq<ActionsGroupNode>): seq<ActionsGroupNode> {
    SortBy(cs, ControllerOrderKey)
  }

  /** The controllers come out ordered by name, all of them. Controllers with the same name
      keep their order. */
  lemma SortedControllersSpec(cs: seq<ActionsGroupNode>)
    ensures var r := SortedControllers(cs);
      multiset(r) == multiset(cs) && |r| == |cs| &&
      (forall i, j :: 0 <= i < j < |r| ==> !StringLess(r[j].Name, r[i].Name)) &&
      (forall k :: WithKey(r, ControllerOrderKey, k) == WithKey(cs, ControllerOrderKey, k))
  {
    var r := SortedControllers(cs);
    SortBySpec(cs, ControllerOrderKey);
    assert |r| == |multiset(r)| == |multiset(cs)| == |cs|;
    forall i, j | 0 <= i < j < |r| ensures !StringLess(r[j].Name, r[i].Name) {
      assert !KeyLess(ControllerOrderKey(r[j]), ControllerOrderKey(r[i]));
    }
  }

  /** The text of lines, each ended by a line break. */
  function LinesText(lines: seq<string>): string {
    if lines == [] then "" else LinesText(lines[..|lines| - 1]) + lines[|lines| - 1] + NewLine
  }

  function ServiceImportLine(c: ActionsGroupNode): string {
    var m := ToCamelCase(c.Name);
    "import * as " + m + "Group from \"./" + m + "\";"
  }

  function ServiceConstantLine(c: ActionsGroupNode): string {
    var m := ToCamelCase(c.Name);
    "export const " + m + " = new " + m + "Group." + c.Name + "Controller();"
  }

  function ServiceEntryLine(c: ActionsGroupNode): string {
    var m := ToCamelCase(c.Name);
    Tab + m + ": " + m + ","
  }

  /** One line per controller, in order. */
  function ImportLines(cs: seq<ActionsGroupNode>): (r: seq<string>)
    ensures |r| == |cs| && forall i :: 0 <= i < |cs| ==> r[i] == ServiceImportLine(cs[i])
  {
    seq(|cs|, i requires 0 <= i < |cs| => ServiceImportLine(cs[i]))
  }

  function ConstantLines(cs: seq<ActionsGroupNode>): (r: seq<string>)
    ensures |r| == |cs| && forall i :: 0 <= i < |cs| ==> r[i] == ServiceConstantLine(cs[i])
  {
    seq(|cs|, i requires 0 <= i < |cs| => ServiceConstantLine(cs[i]))
  }

  function EntryLines(cs: seq<ActionsGroupNode>): (r: seq<string>)
    ensures |r| == |cs| && forall i :: 0 <= i < |cs| ==> r[i] == ServiceEntryLine(cs[i])
  {
    seq(|cs|, i requires 0 <= i < |cs| => ServiceEntryLine(cs[i]))
  }

  /** The import lines of the views modules in the services module. */
  function ViewsImportLines(knockout: bool): seq<string> {
    if knockout then ["import * as views from \"../views\";", "import * as koViews from \"./views\";"]
    else ["import * as views from \"./views\";"]
  }

  /** The `loading` import, the re-exports and an empty line. */
  function LoadingLines(helpers: string): seq<string> {
    ["import { loading } from \"" + helpers + "\";", "export * from \"./views\";",
     "export { loading } from \"" + helpers + "\";", ""]
  }

  /** The line that opens the `services` object. */
  const ServicesOpen: string := "export const services = {"

  /** The end of the `services` object and an empty line. */
  const TailLines: seq<string> := [Tab + "loading: loading", "};", ""]

  /** The services module line by line: the controller modules' imports, the views
      imports, the `loading` lines, one instance per controller, and the `services` object
      that lists them. */
  function ServiceLines(cs: seq<ActionsGroupNode>, knockout: bool, helpers: string): seq<string> {
    ImportLines(cs) + ViewsImportLines(knockout) + LoadingLines(helpers) + ConstantLines(cs) +
    [ServicesOpen] + EntryLines(cs) + TailLines
  }

  /** The text of the services module. */
  function ServicesText(cs: seq<ActionsGroupNode>, knockout: bool, helpers: string): string {
    LinesText(ServiceLines(cs, knockout, helpers))
  }

  /** Writing two runs of lines one after the other writes their concatenation. */
  lemma {:induction false} LinesTextAppend(a: seq<string>, b: seq<string>)
    ensures LinesText(a + b) == LinesText(a) + LinesText(b)
    decreases |b|
  {
    if b == [] {
      assert a + b == a;
    } else {
      var front := b[..|b| - 1];
      assert (a + b)[..|a + b| - 1] == a + front;
      assert (a + b)[|a + b| - 1] == b[|b| - 1];
      LinesTextAppend(a, front);
    }
  }

  /** The layout of the services module: controller k's import is line k, every
      controller's instance follows every import, and the `services` object opens after
      every instance and lists controller k on its k-th line. */
  lemma ServicesLayout(cs: seq<ActionsGroupNode>, knockout: bool, helpers: string)
    ensures var lines := ServiceLines(cs, knockout, helpers);
      var n := |cs|;
      var fixed := |ViewsImportLines(knockout)| + |LoadingLines(helpers)|;
      && |lines| == 3 * n + fixed + 4
      && lines[2 * n + fixed] == ServicesOpen
      && forall k :: 0 <= k < n ==>
           && lines[k] == ServiceImportLine(cs[k])
           && lines[n + fixed + k] == ServiceConstantLine(cs[k])
           && lines[2 * n + fixed + 1 + k] == ServiceEntryLine(cs[k])
  {
    SectionsLayout(ImportLines(cs), ViewsImportLines(knockout), LoadingLines(helpers), ConstantLines(cs),
                   ServicesOpen, EntryLines(cs), TailLines);
  }

  /** Where the lines of `a + b + c + d + [x] + e + f` sit, for runs `a`, `d` and `e` of
      equal length. */
  lemma SectionsLayout<T>(a: seq<T>, b: seq<T>, c: seq<T>, d: seq<T>, x: T, e: seq<T>, f: seq<T>)
    requires |a| == |d| == |e|
    ensures var s := a + b + c + d + [x] + e + f;
      var n := |a|;
      && |s| == 3 * n + |b| + |c| + 1 + |f|
      && s[2 * n + |b| + |c|] == x
      && forall k :: 0 <= k < n ==>
           s[k] == a[k] && s[n + |b| + |c| + k] == d[k] && s[2 * n + |b| + |c| + 1 + k] == e[k]
  {
    var n := |a|;
    var head := a + (b + c);
    var body := d + ([x] + (e + f));
    var s := a + b + c + d + [x] + e + f;
    assert s == head + body;
    forall k | 0 <= k < n
      ensures s[k] == a[k] && s[n + |b| + |c| + k] == d[k] && s[2 * n + |b| + |c| + 1 + k] == e[k]
    {
      assert s[n + |b| + |c| + k] == body[k];
      assert s[2 * n + |b| + |c| + 1 + k] == body[n + 1 + k];
    }
    assert s[2 * n + |b| + |c|] == body[n];
  }

  function ViewsKey(knockout: bool): string {
    if knockout then "ko/views" else "views"
  }

  function ServicesKey(knockout: bool): string {
    if knockout then "ko/services" else "services"
  }

  /** The keys `WriteAssembly` adds, in order: one per controller, then the views and the
      services modules. */
  function AssemblyKeys(cs: seq<ActionsGroupNode>, knockout: bool): (r: seq<string>)
    ensures |r| == |cs| + 2
  {
    ControllerKeys(cs, knockout) + [ViewsKey(knockout), ServicesKey(knockout)]
  }

  /** The keys of the assembly: the controllers' keys, then the views key, then the
      services key. */
  lemma AssemblyKeysParts(cs: seq<ActionsGroupNode>, knockout: bool)
    ensures var keys := AssemblyKeys(cs, knockout);
      keys[..|cs|] == ControllerKeys(cs, knockout) && keys[|cs|] == ViewsKey(knockout) &&
      keys[|cs| + 1] == ServicesKey(knockout) && keys[..|cs| + 2] == keys
  {
  }

  /** Once the views module is added after the controllers' modules, the keys are those
      of `m` and the first `|cs| + 1` keys of the assembly. */
  lemma AssemblyViewsKeys(m: map<string, string>, g: Graph, cs: seq<ActionsGroupNode>, knockout: bool,
                          helpers: string, edit: set<ClassNode>, views: string)
    requires forall i :: 0 <= i < |cs| ==> ControllerInGraph(g, cs[i])
    ensures forall k :: k in ControllerModules(m, g, cs, |cs|, knockout, helpers, edit)[ViewsKey(knockout) := views] <==>
                        k in m || k in AssemblyKeys(cs, knockout)[..|cs| + 1]
  {
    var keys := AssemblyKeys(cs, knockout);
    ControllerModulesKeys(m, g, cs, |cs|, knockout, helpers, edit);
    AssemblyKeysParts(cs, knockout);
    assert keys[..|cs| + 1] == keys[..|cs|] + [ViewsKey(knockout)];
  }

  /** Outside knockout mode, a controller named `Views` or `Services` (or with a lower-case
      first letter) takes the key of the views or the services module. */
  lemma ReservedControllerNames(c: ActionsGroupNode)
    requires c.Name in ["Views", "views", "Services", "services"]
    ensures ControllerKey(c, false) == ViewsKey(false) || ControllerKey(c, false) == ServicesKey(false)
  {
  }

  // ----- The modules of an assembly

  /** Every controller and every type of the assembly can be followed in the graph. */
  ghost predicate AssemblyInGraph(g: Graph, a: AssemblyNode) {
    (forall i :: 0 <= i < |a.Controllers| ==> ControllerInGraph(g, a.Controllers[i])) && TypesInGraph(g, a.Types)
  }

  /** Sorting keeps the controllers in the graph. */
  lemma SortedControllersInGraph(g: Graph, cs: seq<ActionsGroupNode>)
    requires forall i :: 0 <= i < |cs| ==> ControllerInGraph(g, cs[i])
    ensures var r := SortedControllers(cs); forall i :: 0 <= i < |r| ==> ControllerInGraph(g, r[i])
  {
    var r := SortedControllers(cs);
    SortBySpec(cs, ControllerOrderKey);
    forall i | 0 <= i < |r| ensures ControllerInGraph(g, r[i]) {
      assert r[i] in multiset(cs);
    }
  }

  /** The classes whose `HasReadOnly` a controller's parameters ask. */
  ghost function ControllerClasses(g: Graph, c: ActionsGroupNode): set<ClassNode>
    requires ControllerInGraph(g, c)
  {
    var actions := SortedActions(c.Actions);
    ActionsClasses(g, actions, |actions|)
  }

  /** The controller's text makes use of the `views` module. */
  ghost predicate ControllerUsesViews(g: Graph, c: ActionsGroupNode, knockout: bool)
    requires ControllerInGraph(g, c)
  {
    var actions := SortedActions(c.Actions);
    ActionsUseViews(g, actions, |actions|, knockout)
  }

  /** The controller's text makes use of the `koViews` module, by a type name or by a
      conversion of a response. */
  ghost predicate ControllerUsesKoViews(g: Graph, c: ActionsGroupNode, knockout: bool)
    requires ControllerInGraph(g, c)
  {
    var actions := SortedActions(c.Actions);
    ActionsUseKoViews(g, actions, |actions|, knockout) || ActionsConvertToKo(actions, |actions|, knockout)
  }

  /** `WriteController`: the module of a controller, importing the modules it uses. */
  ghost function ControllerModule(g: Graph, c: ActionsGroupNode, knockout: bool, helpers: string,
                                  edit: set<ClassNode>): string
    requires ControllerInGraph(g, c)
  {
    ControllerModuleText(helpers, knockout, ControllerUsesViews(g, c, knockout), ControllerUsesKoViews(g, c, knockout),
                         ControllerBodyText(g, c, knockout, edit))
  }

  /** The key of the `i`-th controller, as a function of `i`. */
  ghost function ControllerKeyAt(cs: seq<ActionsGroupNode>, knockout: bool): nat -> string {
    (i: nat) => if i < |cs| then ControllerKey(cs[i], knockout) else ""
  }

  /** The module of the `i`-th controller, as a function of `i`. */
  ghost function ControllerModuleAt(g: Graph, cs: seq<ActionsGroupNode>, knockout: bool, helpers: string,
                                    edit: set<ClassNode>): nat -> string {
    (i: nat) => if i < |cs| && ControllerInGraph(g, cs[i]) then ControllerModule(g, cs[i], knockout, helpers, edit) else ""
  }

  /** The modules of the first `n` controllers, added to `m` in order. */
  ghost function ControllerModules(m: map<string, string>, g: Graph, cs: seq<ActionsGroupNode>, n: nat,
                                   knockout: bool, helpers: string, edit: set<ClassNode>): map<string, string>
    requires n <= |cs| && forall i :: 0 <= i < |cs| ==> ControllerInGraph(g, cs[i])
  {
    AddEach(m, n, ControllerKeyAt(cs, knockout), ControllerModuleAt(g, cs, knockout, helpers, edit))
  }

  /** The classes the first `n` controllers ask `HasReadOnly` of. */
  ghost function ControllersClasses(g: Graph, cs: seq<ActionsGroupNode>, n: nat): set<ClassNode>
    requires n <= |cs| && forall i :: 0 <= i < |cs| ==> ControllerInGraph(g, cs[i])
  {
    UnionEach(n, ControllerClassesAt(g, cs))
  }

  /** The classes of the `i`-th controller. */
  ghost function ControllerClassesAt(g: Graph, cs: seq<ActionsGroupNode>): nat -> set<ClassNode>
    requires forall i :: 0 <= i < |cs| ==> ControllerInGraph(g, cs[i])
  {
    (i: nat) => if i < |cs| then ControllerClasses(g, cs[i]) else {}
  }

  /** The classes of the first `n + 1` controllers are those of the first `n` and of the
      next one. */
  lemma ControllersClassesNext(g: Graph, cs: seq<ActionsGroupNode>, n: nat)
    requires n < |cs| && forall i :: 0 <= i < |cs| ==> ControllerInGraph(g, cs[i])
    ensures ControllersClasses(g, cs, n + 1) == ControllersClasses(g, cs, n) + ControllerClasses(g, cs[n])
  {
    var part := ControllerClassesAt(g, cs);
    assert part(n) == ControllerClasses(g, cs[n]);
  }

  /** The module keys of the controllers, in order. */
  function ControllerKeys(cs: seq<ActionsGroupNode>, knockout: bool): seq<string>
  {
    seq(|cs|, i requires 0 <= i < |cs| => ControllerKey(cs[i], knockout))
  }

  /** Adding `keys` one by one to a dictionary holding `m` never meets a key already
      there: `Dictionary.Add` throws on the first one that does. */
  ghost predicate FreshKeys(m: map<string, string>, keys: seq<string>) {
    keys == [] ||
    (var init, last := keys[..|keys| - 1], keys[|keys| - 1]; FreshKeys(m, init) && last !in m && last !in init)
  }

  /** Fresh keys are the keys that are pairwise different and not in `m`. */
  lemma {:induction false} FreshKeysSpec(m: map<string, string>, keys: seq<string>)
    ensures FreshKeys(m, keys) <==>
      (forall i :: 0 <= i < |keys| ==> keys[i] !in m) &&
      (forall i, j :: 0 <= i < j < |keys| ==> keys[i] != keys[j])
  {
    if keys != [] {
      var init := keys[..|keys| - 1];
      FreshKeysSpec(m, init);
      if !FreshKeys(m, keys) && FreshKeys(m, init) && keys[|keys| - 1] !in m {
        var k :| 0 <= k < |init| && init[k] == keys[|keys| - 1];
        assert keys[k] == keys[|keys| - 1];
      }
    }
  }

  /** Every prefix of fresh keys is fresh: once a key clashes, no longer sequence of keys is
      fresh. */
  lemma {:induction false} FreshKeysPrefix(m: map<string, string>, keys: seq<string>, n: nat)
    requires n <= |keys|
    ensures FreshKeys(m, keys) ==> FreshKeys(m, keys[..n])
  {
    if n < |keys| {
      var init := keys[..|keys| - 1];
      assert init[..n] == keys[..n];
      FreshKeysPrefix(m, init, n);
    } else {
      assert keys[..n] == keys;
    }
  }

  /** The next key keeps the keys fresh exactly when it is new to a dictionary holding `m`
      and the keys before it. */
  lemma FreshKeysNext(m: map<string, string>, keys: seq<string>, n: nat, current: map<string, string>)
    requires n < |keys| && FreshKeys(m, keys[..n])
    requires forall k :: k in current <==> k in m || k in keys[..n]
    ensures keys[n] !in current <==> FreshKeys(m, keys[..n + 1])
  {
    var next := keys[..n + 1];
    assert next[..|next| - 1] == keys[..n];
    assert next[|next| - 1] == keys[n];
  }

  /** The keys of the added modules are those of `m` and of the first `n` controllers. */
  lemma ControllerModulesKeys(m: map<string, string>, g: Graph, cs: seq<ActionsGroupNode>,
      n: nat, knockout: bool, helpers: string, edit: set<ClassNode>)
    requires n <= |cs| && forall i :: 0 <= i < |cs| ==> ControllerInGraph(g, cs[i])
    ensures forall k :: k in ControllerModules(m, g, cs, n, knockout, helpers, edit) <==>
                        k in m || k in ControllerKeys(cs, knockout)[..n]
  {
    var key := ControllerKeyAt(cs, knockout);
    AddEachKeys(m, n, key, ControllerModuleAt(g, cs, knockout, helpers, edit));
    KeySetSpec(n, key, ControllerKeys(cs, knockout));
  }

  /** The next controller's key is new to the modules added so far exactly when the keys
      stay fresh with it. */
  lemma ControllerModulesNextKey(m: map<string, string>, g: Graph, cs: seq<ActionsGroupNode>,
      n: nat, knockout: bool, helpers: string, edit: set<ClassNode>)
    requires n < |cs| && forall i :: 0 <= i < |cs| ==> ControllerInGraph(g, cs[i])
    requires FreshKeys(m, ControllerKeys(cs, knockout)[..n])
    ensures ControllerKey(cs[n], knockout) !in ControllerModules(m, g, cs, n, knockout, helpers, edit) <==>
            FreshKeys(m, ControllerKeys(cs, knockout)[..n + 1])
  {
    ControllerModulesKeys(m, g, cs, n, knockout, helpers, edit);
    FreshKeysNext(m, ControllerKeys(cs, knockout), n, ControllerModules(m, g, cs, n, knockout, helpers, edit));
  }

  /** The controllers' modules depend on `edit` only through the classes their parameters
      name. */
  lemma ControllerModulesAgree(m: map<string, string>, g: Graph, cs: seq<ActionsGroupNode>,
      n: nat, knockout: bool, helpers: string, e1: set<ClassNode>, e2: set<ClassNode>)
    requires n <= |cs| && forall i :: 0 <= i < |cs| ==> ControllerInGraph(g, cs[i])
    requires forall c :: c in ControllersClasses(g, cs, n) ==> (c in e1 <==> c in e2)
    ensures ControllerModules(m, g, cs, n, knockout, helpers, e1) == ControllerModules(m, g, cs, n, knockout, helpers, e2)
  {
    var v1, v2 := ControllerModuleAt(g, cs, knockout, helpers, e1), ControllerModuleAt(g, cs, knockout, helpers, e2);
    forall i: nat | i < n
      ensures v1(i) == v2(i)
    {
      ControllersClassesHas(g, cs, n, i);
      ControllerModuleAgree(g, cs[i], knockout, helpers, e1, e2);
    }
    AddEachAgree(m, n, ControllerKeyAt(cs, knockout), v1, v2);
  }

  /** The classes of the first `n` controllers include those of each of them. */
  lemma ControllersClassesHas(g: Graph, cs: seq<ActionsGroupNode>, n: nat, i: nat)
    requires i < n <= |cs| && forall j :: 0 <= j < |cs| ==> ControllerInGraph(g, cs[j])
    ensures ControllerClasses(g, cs[i]) <= ControllersClasses(g, cs, n)
  {
    var part := ControllerClassesAt(g, cs);
    UnionEachHas(n, part, i);
    assert part(i) == ControllerClasses(g, cs[i]);
  }

  /** The modules of the first `n + 1` controllers are those of the first `n` and the
      module of the next one, under its key. */
  lemma ControllerModulesStep(m: map<string, string>, g: Graph, cs: seq<ActionsGroupNode>, n: nat,
                              knockout: bool, helpers: string, edit: set<ClassNode>)
    requires n < |cs| && forall i :: 0 <= i < |cs| ==> ControllerInGraph(g, cs[i])
    ensures ControllerModules(m, g, cs, n + 1, knockout, helpers, edit) ==
      ControllerModules(m, g, cs, n, knockout, helpers, edit)[
        ControllerKey(cs[n], knockout) := ControllerModule(g, cs[n], knockout, helpers, edit)]
  {
    var key, value := ControllerKeyAt(cs, knockout), ControllerModuleAt(g, cs, knockout, helpers, edit);
    assert ControllerInGraph(g, cs[n]);
    assert key(n) == ControllerKey(cs[n], knockout);
    assert value(n) == ControllerModule(g, cs[n], knockout, helpers, edit);
  }

  /** A controller's module depends on `edit` only through the classes its parameters name. */
  lemma ControllerModuleAgree(g: Graph, c: ActionsGroupNode, knockout: bool, helpers: string,
                              e1: set<ClassNode>, e2: set<ClassNode>)
    requires ControllerInGraph(g, c)
    requires forall d :: d in ControllerClasses(g, c) ==> (d in e1 <==> d in e2)
    ensures ControllerModule(g, c, knockout, helpers, e1) == ControllerModule(g, c, knockout, helpers, e2)
  {
    var actions := SortedActions(c.Actions);
    ActionsTextAgree(g, actions, |actions|, knockout, AllPrefixes, e1, e2);
  }

  /** Two controllers whose names differ only in the case of their first letter take the
      same key, so writing the assembly fails on the second one. */
  lemma KeysClashOnCase(cs: seq<ActionsGroupNode>, knockout: bool, i: nat, j: nat)
    requires i < j < |cs| && |cs[i].Name| == |cs[j].Name| && cs[i].Name != []
    requires cs[i].Name[1..] == cs[j].Name[1..] && ToLower(cs[i].Name[0]) == ToLower(cs[j].Name[0])
    ensures forall m :: !FreshKeys(m, ControllerKeys(cs, knockout))
  {
    ControllerKeyClash(cs[i], cs[j], knockout);
    var keys := ControllerKeys(cs, knockout);
    assert keys[i] == ControllerKey(cs[i], knockout) && keys[j] == ControllerKey(cs[j], knockout);
    forall m ensures !FreshKeys(m, ControllerKeys(cs, knockout)) {
      FreshKeysSpec(m, ControllerKeys(cs, knockout));
    }
  }

  /** The modules `WriteAssembly` adds to `m` when every key is fresh: the controllers', then
      the views module (the knockout one is given), then the services module. */
  ghost function AssemblyModules(m: map<string, string>, g: Graph, a: AssemblyNode, knockout: bool, helpers: string,
                                 koViews: string, edit: set<ClassNode>): map<string, string>
    requires AssemblyInGraph(g, a)
  {
    var cs := SortedControllers(a.Controllers);
    SortedControllersInGraph(g, a.Controllers);
    ControllerModules(m, g, cs, |cs|, knockout, helpers, edit)
      [ViewsKey(knockout) := if knockout then koViews else ViewsText(g, a.Types)]
      [ServicesKey(knockout) := ServicesText(cs, knockout, helpers)]
  }

  /** The services module's lines for the `k`-th controller, whose camel-cased name is
      `name`: line `k` imports the module `./name`, a later line declares the instance `name`,
      and the `services` object lists it as `name`. The module imported, `dir + name`, is one
      of `modules`. */
  ghost predicate ControllerServiced(lines: seq<string>, modules: map<string, string>, cs: seq<ActionsGroupNode>,
                                     k: int, dir: string, fixed: nat)
    requires 0 <= k < |cs| && |lines| == 3 * |cs| + fixed + 4
  {
    var name := ToCamelCase(cs[k].Name);
    && lines[k] == "import * as " + name + "Group from \"./" + name + "\";"
    && lines[|cs| + fixed + k] == "export const " + name + " = new " + name + "Group." + cs[k].Name + "Controller();"
    && lines[2 * |cs| + fixed + 1 + k] == Tab + name + ": " + name + ","
    && dir + name in modules
  }

  /** Every module the services module imports is one that `WriteAssembly` adds, in the
      services module's own directory, and every controller is declared and listed in
      `services` under the same name. */
  lemma ServiceImportsResolve(m: map<string, string>, g: Graph, a: AssemblyNode, knockout: bool, helpers: string,
                              koViews: string, edit: set<ClassNode>)
    requires AssemblyInGraph(g, a)
    ensures var cs := SortedControllers(a.Controllers);
      var modules := AssemblyModules(m, g, a, knockout, helpers, koViews, edit);
      var lines := ServiceLines(cs, knockout, helpers);
      var dir := if knockout then "ko/" else "";
      var fixed := |ViewsImportLines(knockout)| + |LoadingLines(helpers)|;
      && ServicesKey(knockout) == dir + "services"
      && ServicesKey(knockout) in modules && modules[ServicesKey(knockout)] == LinesText(lines)
      && |lines| == 3 * |cs| + fixed + 4
      && forall k :: 0 <= k < |cs| ==> ControllerServiced(lines, modules, cs, k, dir, fixed)
  {
    var cs := SortedControllers(a.Controllers);
    var modules := AssemblyModules(m, g, a, knockout, helpers, koViews, edit);
    var lines := ServiceLines(cs, knockout, helpers);
    var dir := if knockout then "ko/" else "";
    var fixed := |ViewsImportLines(knockout)| + |LoadingLines(helpers)|;
    AssemblyModulesKeys(m, g, a, knockout, helpers, koViews, edit);
    ServicesLayout(cs, knockout, helpers);
    forall k | 0 <= k < |cs|
      ensures ControllerServiced(lines, modules, cs, k, dir, fixed)
    {
      ServiceLinesAt(cs, knockout, helpers, k);
      assert ControllerKey(cs[k], knockout) == dir + ToCamelCase(cs[k].Name);
    }
    ServicesKeyDir(knockout);
  }

  /** The services module's key is its name in the directory of the mode. */
  lemma ServicesKeyDir(knockout: bool)
    ensures ServicesKey(knockout) == (if knockout then "ko/" else "") + "services"
  {
  }

  /** The keys of the assembly's modules: the services module, holding the services text,
      and every controller's module. */
  lemma AssemblyModulesKeys(m: map<string, string>, g: Graph, a: AssemblyNode, knockout: bool, helpers: string,
                            koViews: string, edit: set<ClassNode>)
    requires AssemblyInGraph(g, a)
    ensures var cs := SortedControllers(a.Controllers);
      var modules := AssemblyModules(m, g, a, knockout, helpers, koViews, edit);
      && ServicesKey(knockout) in modules && modules[ServicesKey(knockout)] == ServicesText(cs, knockout, helpers)
      && forall k :: 0 <= k < |cs| ==> ControllerKey(cs[k], knockout) in modules
  {
    var cs := SortedControllers(a.Controllers);
    SortedControllersInGraph(g, a.Controllers);
    ControllerModulesKeys(m, g, cs, |cs|, knockout, helpers, edit);
    forall k | 0 <= k < |cs|
      ensures ControllerKey(cs[k], knockout) in ControllerModules(m, g, cs, |cs|, knockout, helpers, edit)
    {
      assert ControllerKeys(cs, knockout)[..|cs|][k] == ControllerKey(cs[k], knockout);
    }
  }

  /** The three lines of the `k`-th controller in the services module, written out. */
  lemma ServiceLinesAt(cs: seq<ActionsGroupNode>, knockout: bool, helpers: string, k: nat)
    requires k < |cs|
    ensures var name := ToCamelCase(cs[k].Name);
      var lines := ServiceLines(cs, knockout, helpers);
      var fixed := |ViewsImportLines(knockout)| + |LoadingLines(helpers)|;
      && lines[k] == "import * as " + name + "Group from \"./" + name + "\";"
      && lines[|cs| + fixed + k] == "export const " + name + " = new " + name + "Group." + cs[k].Name + "Controller();"
      && lines[2 * |cs| + fixed + 1 + k] == Tab + name + ": " + name + ","
  {
    ServicesLayout(cs, knockout, helpers);
  }
}
