/** `FieldMatchValidator`: two properties of a bean must be equal, as the
    password and its repetition are on registration. */
module FieldMatchValidator {
  import opened Wrappers
  import opened Text
  import opened ConstraintContext

  const DefaultMessage: string := "The fields must match"

  /** What `BeanUtils.getProperty` gives for a property name: its value as a
      string (`None` for `null`), or a `ReflectiveOperationException`. */
  datatype Lookup = Found(value: Option<string>) | ReflectiveFailure

  /** A bean, seen through `BeanUtils.getProperty`. */
  type Bean = string -> Lookup

  /** `Objects.equals` on two property values: two `null`s are equal. */
  predicate ObjectsEqual(a: Option<string>, b: Option<string>) {
    a == b
  }

  class Validator {
    var firstFieldName: string
    var secondFieldName: string
    var message: string

    constructor ()
      ensures firstFieldName == "" && secondFieldName == "" && message == ""
    {
      firstFieldName := "";
      secondFieldName := "";
      message := "";
    }

    /** `initialize`: the annotation's `first`, `second` and `message`. */
    method Initialize(first: string, second: string, msg: string)
      modifies this
      ensures firstFieldName == first && secondFieldName == second && message == msg
    {
      firstFieldName := first;
      secondFieldName := second;
      message := msg;
    }

    /** `isValid`: the bean is valid when its two properties are equal, or when
        either lookup fails reflectively; a mismatch reports the configured
        message, or, when that is blank, the default message on the first field. */
    method IsValid(bean: Bean, context: Context) returns (valid: bool)
      modifies context
      ensures valid <==>
        bean(firstFieldName).ReflectiveFailure? || bean(secondFieldName).ReflectiveFailure?
        || ObjectsEqual(bean(firstFieldName).value, bean(secondFieldName).value)
      ensures valid ==> context.violations == old(context.violations)
                        && context.defaultViolationDisabled == old(context.defaultViolationDisabled)
      ensures !valid && IsBlank(message) ==>
        context.violations == old(context.violations) + [Violation(DefaultMessage, Some(firstFieldName))]
      ensures !valid && !IsBlank(message) ==>
        context.violations == old(context.violations) + [Violation(message, None)]
      ensures !valid ==> context.defaultViolationDisabled
    {
      valid := true;
      var first := bean(firstFieldName);
      if first.Found? {
        var second := bean(secondFieldName);
        if second.Found? {
          valid := ObjectsEqual(first.value, second.value);
        }
      }
      if !valid {
        if IsBlank(message) {
          context.Report(Violation(DefaultMessage, Some(firstFieldName)));
        } else {
          context.Report(Violation(message, None));
        }
      }
    }
  }
}
