/** The node graph the generator works on (src/Folke.CsTsService/Nodes): classes, their
    properties and the type of each property, plus the action/controller/assembly nodes.
    `ClassNode` and `PropertyNode` are objects whose flags and caches are updated in place;
    the other nodes are plain values. */
module Nodes {
  import opened Wrappers

  /** The kind of a type (TypeIdentifier.cs). */
  datatype TypeIdentifier =
    | Object | Enum | String | DateTime | Double | Float | Int | Long | Boolean
    | Decimal | Guid | Any | TimeSpan | Union | GenericParameter

  datatype TypeModifier = Array | Dictionary

  /** Validation format of a property or parameter; `NoFormat` is the enum's `None`. */
  datatype Format = NoFormat | Email

  datatype ActionMethod = Get | Post | Put | Delete

  datatype ParameterPosition = Path | Query | Body

  /** `TypeNode` (TypeNode.cs). A null reference is `None`, `null` or `NullList`. */
  datatype TypeNode = TypeNode(
    Type: TypeIdentifier,
    Class: ClassNode?,
    Union: TypeNodeList,
    IsObservable: bool,
    Modifiers: seq<TypeModifier>,
    GenericParameters: TypeNodeList,
    GenericName: Option<string>)
  {
    /** `IsCollection`: exactly one modifier, and it is `Array`. */
    predicate IsCollection()
      ensures IsCollection() <==> Modifiers == [TypeModifier.Array]
    {
      |Modifiers| == 1 && Modifiers[0] == TypeModifier.Array
    }

    /** `IsDictionary`: exactly one modifier, and it is `Dictionary`. */
    predicate IsDictionary()
      ensures IsDictionary() <==> Modifiers == [TypeModifier.Dictionary]
    {
      |Modifiers| == 1 && Modifiers[0] == TypeModifier.Dictionary
    }
  }

  /** A list of type nodes that may be a null reference. */
  datatype TypeNodeList = NullList | List(items: seq<TypeNode>)

  /** A type node as the object initialiser leaves it: no modifiers, no union, no
      generic parameters. */
  function NewTypeNode(kind: TypeIdentifier, cls: ClassNode?, observable: bool): (t: TypeNode)
    ensures t.Type == kind && t.Class == cls && t.IsObservable == observable
    ensures t.Modifiers == [] && !t.IsCollection() && !t.IsDictionary()
  {
    TypeNode(kind, cls, NullList, observable, [], NullList, None)
  }

  /** A type is never both a collection and a dictionary, and one with no modifier or with
      more than one is neither. */
  lemma ModifierKinds(t: TypeNode)
    ensures !(t.IsCollection() && t.IsDictionary())
    ensures |t.Modifiers| != 1 ==> !t.IsCollection() && !t.IsDictionary()
  {
  }

  /** `EnumValueNode`. */
  datatype EnumValueNode = EnumValueNode(Name: string, Value: int, Documentation: Option<string>)

  /** `ParameterNode`: a parameter of an action (ParameterNode.cs). */
  datatype ParameterNode = ParameterNode(
    Name: string,
    Documentation: Option<string>,
    IsRequired: bool,
    MinimumLength: Option<int>,
    MaximumLength: Option<int>,
    Format: Format,
    CompareTo: Option<string>,
    Minimum: Option<string>,
    Maximum: Option<string>,
    Type: TypeNode,
    IsCollection: bool,
    IsDictionary: bool,
    Position: ParameterPosition)

  /** `ReturnNode`: what an action returns (ReturnNode.cs). */
  datatype ReturnNode = ReturnNode(
    Type: TypeNode, IsCollection: bool, IsDictionary: bool, Documentation: Option<string>)

  /** `ActionNode`: one action of a controller (ActionNode.cs). The back reference to the
      group is left out; nothing reads it. */
  datatype ActionNode = ActionNode(
    Authorization: Option<string>,
    Type: ActionMethod,
    Name: string,
    Route: string,
    Version: Option<string>,
    Documentation: Option<string>,
    Parameters: seq<ParameterNode>,
    Return: Option<ReturnNode>)

  /** `ActionsGroupNode`: a controller and its actions (ActionsGroupNode.cs). */
  datatype ActionsGroupNode = ActionsGroupNode(
    Name: string, Documentation: Option<string>, Actions: seq<ActionNode>)

  /** One entry of `AssemblyNode.Types`, in insertion order. */
  datatype TypeEntry = TypeEntry(Key: string, Value: ClassNode)

  /** `AssemblyNode` (AssemblyNode.cs). `Types` is a dictionary whose entries the writer
      enumerates in insertion order, so it is kept as a sequence of entries. */
  datatype AssemblyNode = AssemblyNode(
    Name: string, Controllers: seq<ActionsGroupNode>, Types: seq<TypeEntry>)

  /** `ClassNode`: a class or enum of the API, with the flags and caches that the
      generator updates in place. */
  class ClassNode {
    const Version: Option<string>
    const Documentation: Option<string>
    const KoName: Option<string>
    const Properties: Option<seq<PropertyNode>>
    const Values: Option<seq<EnumValueNode>>
    const GenericParameters: Option<seq<string>>
    const Name: string
    /** Whether the class is emitted as an observable view. The writer reads this flag; the
        class declares no such member, so here it is a field of its own. */
    const IsObservable: bool
    var IsReadOnly: bool
    var hasObservable: Option<bool>
    var hasReadonly: Option<bool>

    /** The constructor followed by the object initialiser that sets the descriptive
        members: a new class node is read-only and has computed nothing yet. */
    constructor (name: string, koName: Option<string>, documentation: Option<string>,
                 version: Option<string>, properties: Option<seq<PropertyNode>>,
                 values: Option<seq<EnumValueNode>>, genericParameters: Option<seq<string>>,
                 isObservable: bool)
      ensures Name == name && KoName == koName && Documentation == documentation
      ensures Version == version && Properties == properties && Values == values
      ensures GenericParameters == genericParameters && IsObservable == isObservable
      ensures IsReadOnly
      ensures hasObservable == None && hasReadonly == None
    {
      Name := name;
      KoName := koName;
      Documentation := documentation;
      Version := version;
      Properties := properties;
      Values := values;
      GenericParameters := genericParameters;
      IsObservable := isObservable;
      IsReadOnly := true;
      hasObservable := None;
      hasReadonly := None;
    }

    /** `ClassNode.SetWritable`: clears `IsReadOnly` on this class and, through every
        Object-typed property, on every class reachable from it. The flag is cleared before
        recursing, so a cycle stops at a class already made writable. `pending` holds the
        classes whose calls are still running further up the stack: outside it, writable
        classes only point to writable classes, before and after. */
    method SetWritable(ghost g: Graph, ghost pending: set<ClassNode>)
      requires Closed(g) && this in g.classes
      requires WritableClosedExcept(g, pending)
      modifies g.classes`IsReadOnly
      ensures !IsReadOnly
      ensures WritableClosedExcept(g, pending)
      ensures forall c :: c in g.classes && !old(c.IsReadOnly) ==> !c.IsReadOnly
      ensures forall c :: c in g.classes && old(c.IsReadOnly) && !c.IsReadOnly ==> Reachable(g, this, c)
      ensures !old(IsReadOnly) ==> forall c :: c in g.classes ==> c.IsReadOnly == old(c.IsReadOnly)
      decreases ReadOnlyClasses(g), 1
    {
      if !IsReadOnly {
        return;
      }
      ghost var before := ReadOnlyClasses(g);
      IsReadOnly := false;
      assert this in before - ReadOnlyClasses(g);
      ReachableRefl(g, this);
      if Properties.Some? {
        SetPropertyClassesWritable(g, pending + {this}, before);
      }
      CloseOver(g, this, pending);
    }

    /** The `foreach` of `SetWritable`: `SetWritable` on the class of every Object-typed
        property of this class, in order. `bound` is the set of read-only classes when the
        enclosing `SetWritable` began, of which this class was one. */
    method SetPropertyClassesWritable(ghost g: Graph, ghost pending: set<ClassNode>,
                                      ghost bound: set<ClassNode>)
      requires Closed(g) && this in g.classes && Properties.Some?
      requires WritableClosedExcept(g, pending) && ReadOnlyClasses(g) < bound
      modifies g.classes`IsReadOnly
      ensures WritableClosedExcept(g, pending)
      ensures forall b :: Edge(g, this, b) ==> !b.IsReadOnly
      ensures forall c :: c in g.classes && !old(c.IsReadOnly) ==> !c.IsReadOnly
      ensures forall c :: c in g.classes && old(c.IsReadOnly) && !c.IsReadOnly ==> Reachable(g, this, c)
      decreases bound, 0
    {
      var props := Properties.value;
      ghost var done: set<ClassNode> := {};
      var i := 0;
      while i < |props|
        invariant 0 <= i <= |props|
        invariant WritableClosedExcept(g, pending)
        invariant ReadOnlyClasses(g) < bound
        invariant forall c :: c in g.classes && !old(c.IsReadOnly) ==> !c.IsReadOnly
        invariant forall c :: c in g.classes && old(c.IsReadOnly) && !c.IsReadOnly ==> Reachable(g, this, c)
        invariant forall c :: c in done ==> !c.IsReadOnly
        invariant forall j :: 0 <= j < i && props[j].Type.Type == Object ==> props[j].Type.Class in done
      {
        var property := props[i];
        assert property in g.props;
        if property.Type.Type == Object {
          var target := property.Type.Class;
          target.SetWritable(g, pending);
          done := done + {target};
          assert Edge(g, this, target);
          forall c | c in g.classes && old(c.IsReadOnly) && !c.IsReadOnly
            ensures Reachable(g, this, c)
          {
            if !Reachable(g, this, c) {
              ReachableStep(g, this, target, c);
            }
          }
        }
        assert forall j :: 0 <= j < i + 1 && props[j].Type.Type == Object ==> props[j].Type.Class in done;
        i := i + 1;
      }
      SuccessorsDone(g, this, done);
    }

    /** `ClassNode.HasReadOnly`: memoised; computed as "some property has a read-only
        part", stopping at the first property that has one. The answer true is always
        justified by a reachable read-only property, a read-only property of this class
        forces true, and a cached answer is returned without recomputing anything. */
    method HasReadOnly(ghost g: Graph) returns (r: bool)
      requires Closed(g) && this in g.classes && CacheSound(g)
      modifies g.classes`hasReadonly, g.props`hasReadonly
      ensures CacheSound(g)
      ensures hasReadonly == Some(r)
      ensures r ==> ClassReachesReadOnly(g, this)
      ensures HasDirectReadOnly(g, this) ==> r
      ensures old(hasReadonly).Some? ==> r == old(hasReadonly).value
      ensures CachesKept(g)
      decreases UnsetProps(g), 2
    {
      if hasReadonly.None? {
        var any := AnyPropertyHasReadOnly(g);
        hasReadonly := Some(any);
      }
      r := hasReadonly.value;
    }

    /** `Properties != null && Properties.Any(x => x.HasReadOnly())`, which asks the
        properties in order and stops at the first that answers true. */
    method AnyPropertyHasReadOnly(ghost g: Graph) returns (any: bool)
      requires Closed(g) && this in g.classes && CacheSound(g)
      modifies g.classes`hasReadonly, g.props`hasReadonly
      ensures CacheSound(g) && CachesKept(g)
      ensures any ==> ClassReachesReadOnly(g, this)
      ensures !any ==> !HasDirectReadOnly(g, this)
      decreases UnsetProps(g), 1
    {
      any := false;
      if Properties.Some? {
        var props := Properties.value;
        var i := 0;
        while i < |props| && !any
          invariant 0 <= i <= |props|
          invariant CacheSound(g) && CachesKept(g)
          invariant UnsetProps(g) <= old(UnsetProps(g))
          invariant any ==> ClassReachesReadOnly(g, this)
          invariant !any ==> forall j :: 0 <= j < i ==> !props[j].IsReadOnly
        {
          assert props[i] in g.props;
          any := props[i].HasReadOnly(g);
          if any {
            PropertyLiftsToClass(g, this, props[i]);
          }
          i := i + 1;
        }
      }
    }

    /** The `HasObservable` getter: an explicitly set or already computed value is
        returned as it is; otherwise the value is computed as "writable, with some
        property of an observable type" and cached. */
    method GetHasObservable() returns (r: bool)
      modifies this`hasObservable
      ensures hasObservable == Some(r)
      ensures old(hasObservable).Some? ==> r == old(hasObservable).value
      ensures old(hasObservable).None? ==>
        (r <==> !IsReadOnly && Properties.Some? &&
                exists p :: p in Properties.value && p.Type.IsObservable)
    {
      if hasObservable.None? {
        hasObservable := Some(!IsReadOnly && Properties.Some? &&
          exists i | 0 <= i < |Properties.value| :: Properties.value[i].Type.IsObservable);
      }
      r := hasObservable.value;
    }

    /** The `HasObservable` setter: overrides whatever was computed. */
    method SetHasObservable(value: bool)
      modifies this`hasObservable
      ensures hasObservable == Some(value)
    {
      hasObservable := Some(value);
    }
  }

  /** `PropertyNode`: a property of a class. `Minimum` and `Maximum` are kept as the text
      the writer prints for them. */
  class PropertyNode {
    const Name: string
    const IsRequired: bool
    const MinimumLength: Option<int>
    const MaximumLength: Option<int>
    const Format: Format
    const CompareTo: Option<string>
    const Minimum: Option<string>
    const Maximum: Option<string>
    const Type: TypeNode
    const Documentation: Option<string>
    const IsReadOnly: bool
    var hasReadonly: Option<bool>

    /** The constructor followed by the object initialiser: the cache is empty. */
    constructor (name: string, kind: TypeNode, isRequired: bool, minimumLength: Option<int>,
                 maximumLength: Option<int>, format: Format, compareTo: Option<string>,
                 minimum: Option<string>, maximum: Option<string>,
                 documentation: Option<string>, isReadOnly: bool)
      ensures Name == name && Type == kind && IsRequired == isRequired
      ensures MinimumLength == minimumLength && MaximumLength == maximumLength
      ensures Format == format && CompareTo == compareTo
      ensures Minimum == minimum && Maximum == maximum
      ensures Documentation == documentation && IsReadOnly == isReadOnly
      ensures hasReadonly == None
    {
      Name := name;
      Type := kind;
      IsRequired := isRequired;
      MinimumLength := minimumLength;
      MaximumLength := maximumLength;
      Format := format;
      CompareTo := compareTo;
      Minimum := minimum;
      Maximum := maximum;
      Documentation := documentation;
      IsReadOnly := isReadOnly;
      hasReadonly := None;
    }

    /** Some validation constraint is set on the property. */
    predicate HasConstraint()
    {
      IsRequired || MinimumLength.Some? || MaximumLength.Some? || CompareTo.Some? ||
      Minimum.Some? || Maximum.Some? || Format != NoFormat
    }

    /** `PropertyNode.NeedValidation`: never for a non-observable type; for an observable
        one, exactly when some constraint is set. */
    predicate NeedValidation()
      ensures !Type.IsObservable ==> !NeedValidation()
      ensures Type.IsObservable ==> (NeedValidation() <==> HasConstraint())
    {
      Type.IsObservable && (IsRequired || MinimumLength.Some? || MaximumLength.Some? ||
        CompareTo.Some? || Minimum.Some? || Maximum.Some? || Format != NoFormat)
    }

    /** `PropertyNode.HasReadOnly`: true for a read-only property; otherwise memoised, with
        false cached before recursing into the property's class so that a cycle back to this
        property answers false and the recursion ends. */
    method HasReadOnly(ghost g: Graph) returns (r: bool)
      requires Closed(g) && this in g.props && CacheSound(g)
      modifies g.classes`hasReadonly, g.props`hasReadonly
      ensures CacheSound(g)
      ensures IsReadOnly ==> r && hasReadonly == old(hasReadonly)
      ensures !IsReadOnly ==> hasReadonly == Some(r)
      ensures r ==> PropReachesReadOnly(g, this)
      ensures !IsReadOnly && Type.Type != Object ==> !r
      ensures old(hasReadonly).Some? && !IsReadOnly ==> r == old(hasReadonly).value
      ensures CachesKept(g)
      decreases UnsetProps(g), 0
    {
      if IsReadOnly {
        return IsReadOnly;
      }
      if hasReadonly.None? {
        hasReadonly := Some(false);
        assert this in old(UnsetProps(g)) - UnsetProps(g);
        if Type.Type == Object {
          var viaClass := Type.Class.HasReadOnly(g);
          hasReadonly := Some(viaClass);
        } else {
          hasReadonly := Some(false);
        }
      }
      r := hasReadonly.value;
    }
  }

  /** The objects of one node graph, given to the in-place operations as ghost state. */
  datatype Graph = Graph(classes: set<ClassNode>, props: set<PropertyNode>)

  /** The graph holds every property of its classes and the class of every Object-typed
      property (the generator follows `Type.Class` of such properties without a null check). */
  ghost predicate Closed(g: Graph)
  {
    (forall c :: c in g.classes && c.Properties.Some? ==>
       forall p :: p in c.Properties.value ==> p in g.props) &&
    (forall p :: p in g.props && p.Type.Type == Object ==>
       p.Type.Class != null && p.Type.Class in g.classes)
  }

  /** `a` is a graph class with an Object-typed property whose class is `b`. */
  ghost predicate Edge(g: Graph, a: ClassNode, b: ClassNode)
  {
    a in g.classes && a.Properties.Some? &&
    exists p :: p in a.Properties.value && p in g.props && p.Type.Type == Object && p.Type.Class == b
  }

  /** `b` can be reached from `a` in exactly `n` edges. */
  ghost predicate ReachableIn(g: Graph, a: ClassNode, b: ClassNode, n: nat)
    decreases n
  {
    if n == 0 then a == b
    else exists m :: m in g.classes && Edge(g, a, m) && ReachableIn(g, m, b, n - 1)
  }

  /** `b` can be reached from the graph class `a` through Object-typed properties, in zero
      or more steps. */
  ghost predicate Reachable(g: Graph, a: ClassNode, b: ClassNode)
  {
    a in g.classes && exists n: nat :: ReachableIn(g, a, b, n)
  }

  lemma ReachableRefl(g: Graph, a: ClassNode)
    requires a in g.classes
    ensures Reachable(g, a, a)
  {
    assert ReachableIn(g, a, a, 0);
  }

  /** An edge followed by a path is a path. */
  lemma ReachableStep(g: Graph, a: ClassNode, b: ClassNode, c: ClassNode)
    requires Edge(g, a, b) && b in g.classes && Reachable(g, b, c)
    ensures Reachable(g, a, c)
  {
    var n: nat :| ReachableIn(g, b, c, n);
    assert ReachableIn(g, a, c, n + 1);
  }

  /** The classes of the graph that are still read-only. */
  ghost function ReadOnlyClasses(g: Graph): set<ClassNode>
    reads g.classes`IsReadOnly
  {
    set c | c in g.classes && c.IsReadOnly
  }

  /** Every writable class outside `pending` links only to writable classes. */
  ghost predicate WritableClosedExcept(g: Graph, pending: set<ClassNode>)
    reads g.classes`IsReadOnly
  {
    forall a, b :: a in g.classes && b in g.classes && a !in pending && !a.IsReadOnly && Edge(g, a, b) ==>
      !b.IsReadOnly
  }

  /** Every class an edge leaves `a` for is the class of one of its Object-typed properties. */
  lemma SuccessorsDone(g: Graph, a: ClassNode, done: set<ClassNode>)
    requires a in g.classes
    requires a.Properties.Some? ==>
      forall j :: 0 <= j < |a.Properties.value| && a.Properties.value[j].Type.Type == Object ==>
        a.Properties.value[j].Type.Class in done
    ensures forall b :: Edge(g, a, b) ==> b in done
  {
    forall b | Edge(g, a, b) ensures b in done {
      var p :| p in a.Properties.value && p in g.props && p.Type.Type == Object && p.Type.Class == b;
      var j :| 0 <= j < |a.Properties.value| && a.Properties.value[j] == p;
    }
  }

  /** A writable class whose successors are all writable can leave the exception set. */
  lemma CloseOver(g: Graph, a: ClassNode, pending: set<ClassNode>)
    requires a in g.classes && !a.IsReadOnly
    requires WritableClosedExcept(g, pending + {a})
    requires forall b :: Edge(g, a, b) ==> !b.IsReadOnly
    ensures WritableClosedExcept(g, pending)
  {
  }

  /** Once `SetWritable` has returned to the top, every class reachable from a writable
      class is writable: in particular, every class reachable from the class it was called on. */
  lemma WritableReachable(g: Graph, a: ClassNode, b: ClassNode)
    requires WritableClosedExcept(g, {}) && a in g.classes && !a.IsReadOnly
    requires Reachable(g, a, b)
    ensures !b.IsReadOnly
  {
    var n: nat :| ReachableIn(g, a, b, n);
    WritableReachableIn(g, a, b, n);
  }

  lemma {:induction false} WritableReachableIn(g: Graph, a: ClassNode, b: ClassNode, n: nat)
    requires WritableClosedExcept(g, {}) && a in g.classes && !a.IsReadOnly
    requires ReachableIn(g, a, b, n)
    ensures !b.IsReadOnly
    decreases n
  {
    if n > 0 {
      var m :| m in g.classes && Edge(g, a, m) && ReachableIn(g, m, b, n - 1);
      WritableReachableIn(g, m, b, n - 1);
    }
  }

  /** A property of `c` that is read-only. */
  ghost predicate HasDirectReadOnly(g: Graph, c: ClassNode)
  {
    c in g.classes && c.Properties.Some? &&
    exists p :: p in c.Properties.value && p in g.props && p.IsReadOnly
  }

  /** Some class reachable from `c` has a read-only property. */
  ghost predicate ClassReachesReadOnly(g: Graph, c: ClassNode)
  {
    exists d :: d in g.classes && Reachable(g, c, d) && HasDirectReadOnly(g, d)
  }

  /** The property is read-only, or is Object-typed and its class reaches a read-only
      property. */
  ghost predicate PropReachesReadOnly(g: Graph, p: PropertyNode)
  {
    p.IsReadOnly ||
    (p.Type.Type == Object && p.Type.Class != null && p.Type.Class in g.classes &&
     ClassReachesReadOnly(g, p.Type.Class))
  }

  /** What the `hasReadonly` caches may hold: a class cached true reaches a read-only
      property, a class cached false has no read-only property of its own, and a property
      cached true reaches a read-only property. */
  ghost predicate CacheSound(g: Graph)
    reads g.classes`hasReadonly, g.props`hasReadonly
  {
    (forall c :: c in g.classes && c.hasReadonly == Some(true) ==> ClassReachesReadOnly(g, c)) &&
    (forall c :: c in g.classes && c.hasReadonly == Some(false) ==> !HasDirectReadOnly(g, c)) &&
    (forall p :: p in g.props && p.hasReadonly == Some(true) ==> PropReachesReadOnly(g, p))
  }

  /** The properties whose `hasReadonly` cache is still empty. */
  ghost function UnsetProps(g: Graph): set<PropertyNode>
    reads g.props`hasReadonly
  {
    set p | p in g.props && p.hasReadonly.None?
  }

  /** A cache that held a value before keeps it. */
  twostate predicate CachesKept(g: Graph)
    reads g.classes`hasReadonly, g.props`hasReadonly
  {
    (forall c :: c in g.classes && old(c.hasReadonly).Some? ==> c.hasReadonly == old(c.hasReadonly)) &&
    (forall p :: p in g.props && old(p.hasReadonly).Some? ==> p.hasReadonly == old(p.hasReadonly))
  }

  /** A property of `c` that reaches a read-only property makes `c` reach one. */
  lemma PropertyLiftsToClass(g: Graph, c: ClassNode, p: PropertyNode)
    requires Closed(g) && c in g.classes && c.Properties.Some? && p in c.Properties.value
    requires PropReachesReadOnly(g, p)
    ensures ClassReachesReadOnly(g, c)
  {
    ReachableRefl(g, c);
    if !p.IsReadOnly {
      var d :| d in g.classes && Reachable(g, p.Type.Class, d) && HasDirectReadOnly(g, d);
      assert Edge(g, c, p.Type.Class);
      ReachableStep(g, c, p.Type.Class, d);
    }
  }
}
