/** The `Optional<T>` struct (src/Folke.CsTsService/Optional/Optional.cs): a value that is
    either undefined or set, where a set value may itself be null. Being a struct, it is a
    value: the `Value` setter is modelled as a function returning the updated value. */
module Optionals {
  import opened Wrappers

  /** A C# value of type `T`, which may be null. */
  datatype Nullable<T> = Null | NonNull(v: T)

  /** `IsSet` and the private `_value` field. */
  datatype Optional<T(==)> = Optional(IsSet: bool, stored: Nullable<T>) {

    /** Every value the struct's members can produce: an undefined optional still holds
        the default value of `T` (null for the reference types the generator uses). */
    predicate Reachable() {
      !IsSet ==> stored == Null
    }

    /** The `Value` getter: the stored value when set, an exception otherwise. */
    function Get(): (r: Result<Nullable<T>>)
      ensures r.Success? <==> IsSet
      ensures r.Success? ==> r.value == stored
      ensures r.Failure? ==> r.error == "Value is not set"
    {
      if IsSet then Success(stored) else Failure("Value is not set")
    }

    /** The `Value` setter: always makes the optional set, whatever it held before. */
    function Set(value: Nullable<T>): (r: Optional<T>)
      ensures r.Reachable() && r.IsSet
      ensures r.Get() == Success(value)
    {
      Optional(true, value)
    }

    /** `GetValueOrDefault()` and the implicit conversion to `T`: the stored field,
        even when the optional is undefined. */
    function GetValueOrDefault(): (r: Nullable<T>)
      ensures Reachable() && !IsSet ==> r == Null
      ensures IsSet ==> Get() == Success(r)
    {
      stored
    }

    /** `GetValueOrDefault(defaultValue)`: `defaultValue` exactly when undefined. */
    function GetValueOrDefaultOr(defaultValue: Nullable<T>): (r: Nullable<T>)
      ensures !IsSet ==> r == defaultValue
      ensures IsSet ==> Get() == Success(r)
    {
      if !IsSet then defaultValue else stored
    }

    /** `Equals(object)`: an undefined optional equals only null; a set one equals a
        non-null object equal to its non-null value. */
    function Equals(other: Nullable<T>): (r: bool)
      ensures r ==> (IsSet <==> other != Null)
      ensures r && IsSet ==> stored == other
      ensures IsSet && stored != Null && stored == other ==> r
      ensures r <==> if !IsSet then other == Null else other != Null && stored != Null && stored == other
    {
      if !IsSet then other == Null
      else if other == Null then false
      else if stored == Null then false
      else stored.v == other.v
    }

    /** `GetHashCode()`: -1 for an undefined optional or a null value, otherwise the value's
        own hash code, given here as `hash`. */
    function HashCode(hash: T -> int): (r: int)
      ensures !IsSet || stored == Null ==> r == -1
      ensures IsSet && stored != Null ==> r == hash(stored.v)
    {
      if !IsSet || stored == Null then -1 else hash(stored.v)
    }

    /** `ToString()`: "undefined", "null", or the value's own text, given here as `show`. */
    function ToString(show: T -> string): (r: string)
      ensures !IsSet ==> r == "undefined"
      ensures IsSet && stored == Null ==> r == "null"
      ensures IsSet && stored != Null ==> r == show(stored.v)
    {
      if !IsSet then "undefined" else if stored == Null then "null" else show(stored.v)
    }
  }

  /** `Optional<T>.Undefined`, the struct's default value. */
  function Undefined<T(==)>(): (r: Optional<T>)
    ensures r.Reachable() && !r.IsSet
    ensures r.Get().Failure?
  {
    Optional(false, Null)
  }

  /** The constructor `Optional(T value)`; the implicit conversion from `T` builds the
      same value. */
  function New<T(==)>(value: Nullable<T>): (r: Optional<T>)
    ensures r.Reachable() && r.IsSet
    ensures r.Get() == Success(value) && r.GetValueOrDefault() == value
  {
    Optional(true, value)
  }

  /** `operator ==`: two undefined optionals are equal, an undefined and a set one are not,
      and two set ones are equal when their values are (null equal only to null). */
  function Eq<T(==)>(t1: Optional<T>, t2: Optional<T>): (r: bool)
    ensures !t1.IsSet && !t2.IsSet ==> r
    ensures t1.IsSet != t2.IsSet ==> !r
    ensures t1.IsSet && t2.IsSet ==> (r <==> t1.stored == t2.stored)
  {
    if !t1.IsSet && !t2.IsSet then true
    else if t1.IsSet != t2.IsSet then false
    else if t1.stored == Null then t2.stored == Null
    else t2.stored != Null && t1.stored.v == t2.stored.v
  }

  /** `Equals` against a non-null object agrees with `==` against the optional set to it.
      Against null, `Equals` holds exactly for an undefined optional: a set optional holding
      null does not equal null, though `==` makes two such optionals equal. */
  lemma EqualsAgainstEq<T>(o: Optional<T>, other: Nullable<T>)
    requires o.Reachable()
    ensures other != Null ==> (o.Equals(other) <==> Eq(o, New(other)))
    ensures other == Null ==> (o.Equals(other) <==> !o.IsSet)
    ensures o.IsSet && o.stored == Null ==> !o.Equals(Null) && Eq(o, New(Null))
  {
  }

  /** `operator !=`, the negation of `==`. */
  function NotEq<T(==)>(t1: Optional<T>, t2: Optional<T>): (r: bool)
    ensures r <==> !Eq(t1, t2)
  {
    !Eq(t1, t2)
  }

  /** `==` is an equivalence relation. */
  lemma EqIsEquivalence<T>(a: Optional<T>, b: Optional<T>, c: Optional<T>)
    ensures Eq(a, a)
    ensures Eq(a, b) == Eq(b, a)
    ensures Eq(a, b) && Eq(b, c) ==> Eq(a, c)
  {
  }

  /** On the values the struct can produce, `==` is exactly equality of the two values. */
  lemma EqIsIdentity<T>(a: Optional<T>, b: Optional<T>)
    requires a.Reachable() && b.Reachable()
    ensures Eq(a, b) <==> a == b
  {
  }

  /** Equal optionals have equal hash codes, as `Equals`/`GetHashCode` require. */
  lemma EqualHashCodes<T>(a: Optional<T>, b: Optional<T>, hash: T -> int)
    requires Eq(a, b)
    ensures a.HashCode(hash) == b.HashCode(hash)
  {
  }

  /** Setting a value and reading it back, through the getter, the conversion to `T` or
      `GetValueOrDefault(d)`, returns that value; `Equals` then agrees with `==` on the
      wrapped value. */
  lemma SetThenRead<T>(o: Optional<T>, value: Nullable<T>, d: Nullable<T>)
    ensures o.Set(value).Get() == Success(value)
    ensures o.Set(value).GetValueOrDefault() == value
    ensures o.Set(value).GetValueOrDefaultOr(d) == value
    ensures Eq(o.Set(value), New(value))
    ensures value != Null ==> o.Set(value).Equals(value)
  {
  }
}
