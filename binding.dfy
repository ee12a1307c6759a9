/**
 * Spring's record of a validation run: the BindingResult a handler receives
 * and the errors it holds. Only field errors come from Member's constraints;
 * an object-level error is possible in the type and is handled where the
 * source casts.
 */
module Binding {
  import opened Members

  /** org.springframework.validation.ObjectError and its subclass FieldError. */
  datatype ObjectError =
    | FieldError(field: string, defaultMessage: string)
    | GlobalError(defaultMessage: string)

  /** org.springframework.validation.BindingResult, reduced to its list of errors. */
  datatype BindingResult = BindingResult(errors: seq<ObjectError>) {
    predicate HasErrors() {
      errors != []
    }
  }

  predicate AllFieldErrors(errors: seq<ObjectError>) {
    forall e :: e in errors ==> e.FieldError?
  }

  /** Each violation reported as a FieldError on its property, with its message. */
  function AsFieldErrors(vs: seq<Violation>): (es: seq<ObjectError>)
  {
    seq(|vs|, i requires 0 <= i < |vs| => FieldError(vs[i].field, vs[i].message))
  }

  /** The BindingResult of validating m with no conversion error. */
  function Validate(m: Member): (result: BindingResult)
    ensures result.HasErrors() <==> !Valid(m)
    ensures AllFieldErrors(result.errors)
    ensures |result.errors| <= 2
    ensures forall e :: e in result.errors ==> e.field == NameField || e.field == UniformNumberField
  {
    BindingResult(AsFieldErrors(Violations(m)))
  }
}
