/** The validator chain that `WriteKoProperty` appends to a knockout observable
    (src/Folke.CsTsService/TypeScriptWriter.cs:526-565). Each constraint of the property
    becomes one `.addValidator(validation.…)` call. The chain is given twice. The first
    follows the code as written. The second is the chain the code evidently intends. The
    written one has two slips: it checks the maximum length with `hasMinLength`, and its
    range test checks `Maximum` twice. */
module KoValidation {
  import opened Wrappers
  import opened Text
  import opened Nodes

  /** One validator of the `folke-ko-validation` module. The bounds of a range are written
      verbatim: they are strings in the property node. */
  datatype Validator =
    | IsRequired
    | AreSame(other: string)
    | HasMinLength(length: int)
    | HasMaxLength(length: int)
    | IsEmail
    | IsInRange(minimum: string, maximum: string)
    | IsAtMost(maximum: string)
    | IsAtLeast(minimum: string)

  /** The text of one validator call. */
  function ValidatorText(v: Validator): string
  {
    ".addValidator(validation." +
    (match v
     case IsRequired => "isRequired"
     case AreSame(other) => "areSame(this." + other + ")"
     case HasMinLength(n) => "hasMinLength(" + IntToString(n) + ")"
     case HasMaxLength(n) => "hasMaxLength(" + IntToString(n) + ")"
     case IsEmail => "isEmail"
     case IsInRange(minimum, maximum) => "isInRange(" + minimum + ", " + maximum + ")"
     case IsAtMost(maximum) => "isAtMost(" + maximum + ")"
     case IsAtLeast(minimum) => "isAtLeast(" + minimum + ")") +
    ")"
  }

  /** The text of a chain of validators, in order. */
  function ChainText(vs: seq<Validator>): string
  {
    if vs == [] then "" else ChainText(vs[..|vs| - 1]) + ValidatorText(vs[|vs| - 1])
  }

  /** The validators of the constraints that do not involve the maximum length or the
      range. Both chains share them. */
  function CommonValidators(p: PropertyNode): seq<Validator>
  {
    (if p.IsRequired then [IsRequired] else []) +
    (if p.CompareTo.Some? then [AreSame(p.CompareTo.value)] else []) +
    (if p.MinimumLength.Some? then [HasMinLength(p.MinimumLength.value)] else [])
  }

  /** The chain as the code writes it. The maximum length is checked with `hasMinLength`.
      The range test checks `Maximum` twice, so any set maximum gives `isInRange`, with an
      empty lower bound when `Minimum` is null. The `isAtMost` branch is never taken. */
  function ValidatorsAsWritten(p: PropertyNode): seq<Validator>
  {
    if !p.NeedValidation() then []
    else
      CommonValidators(p) +
      (if p.MaximumLength.Some? then [HasMinLength(p.MaximumLength.value)] else []) +
      (if p.Format == Email then [IsEmail] else []) +
      (if p.Maximum.Some? && p.Maximum.Some? then [IsInRange(p.Minimum.GetOr(""), p.Maximum.GetOr(""))]
       else if p.Maximum.Some? then [IsAtMost(p.Maximum.GetOr(""))]
       else if p.Minimum.Some? then [IsAtLeast(p.Minimum.GetOr(""))]
       else [])
  }

  /** The chain the code evidently intends: `hasMaxLength` for the maximum length, and the
      range validator chosen by which of the two bounds are set. */
  function ValidatorsIntended(p: PropertyNode): seq<Validator>
  {
    if !p.NeedValidation() then []
    else
      CommonValidators(p) +
      (if p.MaximumLength.Some? then [HasMaxLength(p.MaximumLength.value)] else []) +
      (if p.Format == Email then [IsEmail] else []) +
      RangeIntended(p.Minimum, p.Maximum)
  }

  /** The range validator of the intended chain, chosen by which bounds are set. */
  function RangeIntended(minimum: Option<string>, maximum: Option<string>): seq<Validator>
  {
    if minimum.Some? && maximum.Some? then [IsInRange(minimum.value, maximum.value)]
    else if maximum.Some? then [IsAtMost(maximum.value)]
    else if minimum.Some? then [IsAtLeast(minimum.value)]
    else []
  }

  /** As written, `isAtMost` is never emitted and `hasMaxLength` never is either. A set
      maximum length yields `hasMinLength` of that length. A set maximum yields `isInRange`
      whether or not a minimum is set. */
  lemma AsWrittenChain(p: PropertyNode)
    ensures forall v :: v in ValidatorsAsWritten(p) ==> !v.IsAtMost? && !v.HasMaxLength?
    ensures p.NeedValidation() && p.MaximumLength.Some? ==>
              HasMinLength(p.MaximumLength.value) in ValidatorsAsWritten(p)
    ensures p.NeedValidation() && p.Maximum.Some? ==>
              IsInRange(p.Minimum.GetOr(""), p.Maximum.value) in ValidatorsAsWritten(p)
  {
    if p.NeedValidation() {
      var r := ValidatorsAsWritten(p);
      var head := CommonValidators(p) +
        (if p.MaximumLength.Some? then [HasMinLength(p.MaximumLength.value)] else []);
      assert forall v :: v in head ==> !v.IsAtMost? && !v.HasMaxLength?;
      if p.MaximumLength.Some? {
        assert HasMinLength(p.MaximumLength.value) in head;
      }
    }
  }

  /** A property with a maximum and no minimum: the written chain ends with a range whose
      lower bound is empty, which is not valid TypeScript. The intended chain has `isAtMost`. */
  lemma AsWrittenEmptyLowerBound(p: PropertyNode)
    requires p.Type.IsObservable && p.Maximum == Some("10") && p.Minimum.None?
    ensures ValidatorText(IsInRange(p.Minimum.GetOr(""), p.Maximum.value)) ==
            ".addValidator(validation.isInRange(, 10))"
    ensures IsInRange("", "10") in ValidatorsAsWritten(p)
    ensures IsAtMost("10") in ValidatorsIntended(p)
    ensures ValidatorsAsWritten(p) != ValidatorsIntended(p)
  {
    AsWrittenChain(p);
    IntendedChain(p);
    EmptyLowerBoundText();
  }

  /** The range validator with an empty lower bound, as text. */
  lemma EmptyLowerBoundText()
    ensures ValidatorText(IsInRange("", "10")) == ".addValidator(validation.isInRange(, 10))"
  {
  }

  /** A property with a maximum length: the written chain checks it as a minimum length. */
  lemma AsWrittenMaximumLength(p: PropertyNode)
    requires p.Type.IsObservable && p.MaximumLength == Some(50)
    ensures HasMinLength(50) in ValidatorsAsWritten(p)
    ensures HasMaxLength(50) !in ValidatorsAsWritten(p)
    ensures HasMaxLength(50) in ValidatorsIntended(p)
  {
    AsWrittenChain(p);
    IntendedChain(p);
  }

  /** The validators a property's constraints call for, one per constraint, each carrying
      the value it checks. The range validator depends on which bounds are set. */
  predicate CalledFor(p: PropertyNode, v: Validator)
  {
    match v
    case IsRequired => p.IsRequired
    case AreSame(other) => p.CompareTo == Some(other)
    case HasMinLength(n) => p.MinimumLength == Some(n)
    case HasMaxLength(n) => p.MaximumLength == Some(n)
    case IsEmail => p.Format == Email
    case IsInRange(minimum, maximum) => p.Minimum == Some(minimum) && p.Maximum == Some(maximum)
    case IsAtMost(maximum) => p.Minimum.None? && p.Maximum == Some(maximum)
    case IsAtLeast(minimum) => p.Maximum.None? && p.Minimum == Some(minimum)
  }

  /** The intended chain holds exactly the validators the constraints call for, and only
      when the property needs validation. */
  lemma IntendedChain(p: PropertyNode)
    ensures forall v :: v in ValidatorsIntended(p) <==> p.NeedValidation() && CalledFor(p, v)
  {
    if p.NeedValidation() {
      var r := ValidatorsIntended(p);
      var common := CommonValidators(p);
      var length := if p.MaximumLength.Some? then [HasMaxLength(p.MaximumLength.value)] else [];
      var email := if p.Format == Email then [IsEmail] else [];
      var range := RangeIntended(p.Minimum, p.Maximum);
      assert r == common + length + email + range;
      forall v ensures v in r <==> CalledFor(p, v) {
        assert v in r <==> v in common || v in length || v in email || v in range;
      }
    }
  }

  /** The two chains differ only where the slips are. With no maximum length, and a minimum
      whenever there is a maximum, the written chain is the intended one. */
  lemma ChainsAgreeOffTheSlips(p: PropertyNode)
    requires p.MaximumLength.None? && (p.Maximum.Some? ==> p.Minimum.Some?)
    ensures ValidatorsAsWritten(p) == ValidatorsIntended(p)
  {
  }

  /** The text of a chain extended by one validator. */
  lemma ChainTextSnoc(vs: seq<Validator>, v: Validator)
    ensures ChainText(vs + [v]) == ChainText(vs) + ValidatorText(v)
  {
    assert (vs + [v])[..|vs|] == vs;
  }
}
