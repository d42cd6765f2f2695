/** Jakarta Validation's `ConstraintValidatorContext`, reduced to what the
    bookstore's validators do with it: add violations and switch off the
    default one. */
module ConstraintContext {
  import opened Wrappers

  /** A violation built with `buildConstraintViolationWithTemplate`, attached to
      a property node when `addPropertyNode` named one. */
  datatype Violation = Violation(template: string, propertyNode: Option<string>)

  class Context {
    var violations: seq<Violation>
    var defaultViolationDisabled: bool

    /** A fresh context: no violations yet, the default one still enabled. */
    constructor ()
      ensures violations == [] && !defaultViolationDisabled
    {
      violations := [];
      defaultViolationDisabled := false;
    }

    /** `buildConstraintViolationWithTemplate(..)[.addPropertyNode(..)]
        .addConstraintViolation().disableDefaultConstraintViolation()`. */
    method Report(v: Violation)
      modifies this
      ensures violations == old(violations) + [v]
      ensures defaultViolationDisabled
    {
      violations := violations + [v];
      defaultViolationDisabled := true;
    }
  }
}
