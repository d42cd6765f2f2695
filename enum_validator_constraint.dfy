/** `EnumValidatorConstraint`: a string is valid when it names a constant of
    the configured enum. `UpdateOrderDto.status` is checked against
    `Order.OrderStatus` this way. */
module EnumValidatorConstraint {
  import opened Wrappers
  import opened Entities
  import opened ConstraintContext

  /** `String.join(", ", names)`. */
  function Join(names: seq<string>): (r: string)
    ensures names == [] ==> r == ""
    ensures |names| == 1 ==> r == names[0]
  {
    if names == [] then ""
    else if |names| == 1 then names[0]
    else names[0] + ", " + Join(names[1..])
  }

  /** `Arrays.toString` of an array of strings. */
  function ArrayToString(names: seq<string>): (r: string)
    ensures |r| >= 2 && r[0] == '[' && r[|r| - 1] == ']'
  {
    "[" + Join(names) + "]"
  }

  const MessagePrefix: string := "must be any of enum: "

  class Validator {
    var message: string
    var values: set<string>

    constructor ()
      ensures message == "" && values == {}
    {
      message := "";
      values := {};
    }

    /** `initialize`: `enumNames` are the names of the enum's constants, in
        declaration order (`getEnumConstants`, then `Enum::name`). */
    method Initialize(enumNames: seq<string>)
      modifies this
      ensures forall n :: n in values <==> n in enumNames
      ensures message == MessagePrefix + ArrayToString(enumNames)
    {
      values := set n | n in enumNames;
      message := MessagePrefix + ArrayToString(enumNames);
    }

    /** `isValid`: exactly the names of the constants, compared exactly, are
        valid, and `null` is not; an invalid value reports the message listing
        every name, a valid one reports nothing. */
    method IsValid(value: Option<string>, context: Context) returns (valid: bool)
      modifies context
      ensures valid <==> value.Some? && value.value in values
      ensures valid ==> context.violations == old(context.violations)
                        && context.defaultViolationDisabled == old(context.defaultViolationDisabled)
      ensures !valid ==> context.violations == old(context.violations) + [Violation(message, None)]
                         && context.defaultViolationDisabled
    {
      valid := value.Some? && value.value in values;
      if !valid {
        context.Report(Violation(message, None));
      }
    }
  }

  /** The validator on `OrderStatus` accepts exactly the names `valueOf`
      accepts, so a validated status never makes `updateOrderById` fail. */
  lemma StatusNamesAreParsed(name: string)
    ensures name in StatusNames <==> ParseStatus(name).Some?
  {
  }

  /** Validation is case-sensitive: "PAID" is a status name, "paid" is not. */
  lemma StatusNamesAreCaseSensitive()
    ensures "PAID" in StatusNames && "paid" !in StatusNames
  {
    assert StatusNames[1] == "PAID";
  }
}
