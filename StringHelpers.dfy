/** Casing of an identifier's first character (src/Folke.CsTsService/StringHelpers.cs). */
module StringHelpers {
  import opened Text

  /** `StringHelpers.ToCamelCase`: the first character lower-cased, the rest unchanged;
      an empty identifier is returned as it is. */
  function ToCamelCase(identifier: string): (r: string)
    ensures |r| == |identifier|
    ensures r != [] ==> r[0] == ToLower(identifier[0])
    ensures r != [] ==> r[1..] == identifier[1..]
  {
    if identifier == [] then identifier
    else [ToLower(identifier[0])] + identifier[1..]
  }

  /** `StringHelpers.ToPascalCase`: the first character upper-cased, the rest unchanged;
      an empty identifier is returned as it is. */
  function ToPascalCase(identifier: string): (r: string)
    ensures |r| == |identifier|
    ensures r != [] ==> r[0] == ToUpper(identifier[0])
    ensures r != [] ==> r[1..] == identifier[1..]
  {
    if identifier == [] then identifier
    else [ToUpper(identifier[0])] + identifier[1..]
  }

  /** Both conversions are idempotent, and each undoes the other's effect on the first
      character: camel-casing a Pascal-cased identifier gives its camel-cased form. */
  lemma CasingLaws(identifier: string)
    ensures ToCamelCase(ToCamelCase(identifier)) == ToCamelCase(identifier)
    ensures ToPascalCase(ToPascalCase(identifier)) == ToPascalCase(identifier)
    ensures ToCamelCase(ToPascalCase(identifier)) == ToCamelCase(identifier)
    ensures ToPascalCase(ToCamelCase(identifier)) == ToPascalCase(identifier)
  {
    if identifier != [] {
      CaseMappingLaws(identifier[0]);
    }
  }

  /** Two identifiers with the same camel-cased form differ at most in the case of their
      first letter. */
  lemma CamelCaseCollisions(a: string, b: string)
    requires ToCamelCase(a) == ToCamelCase(b)
    ensures |a| == |b|
    ensures a != [] ==> a[1..] == b[1..] && ToLower(a[0]) == ToLower(b[0])
  {
  }
}
