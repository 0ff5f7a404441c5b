/**
 * The two cross-field rules of the request validators: `sameAs` (a
 * confirmation field repeats another field) and `notSameAs` (a new value
 * differs from an old one). A failing rule yields one validation error for
 * the field that carries the rule, with the validator's default message; the
 * per-field rules of the same schemas are not part of this model.
 */
module CrossField {
  import opened HttpException

  function SameAsMessage(field: string, otherField: string): string
  {
    "The " + field + " field and " + otherField + " field must be the same"
  }

  function NotSameAsMessage(field: string, otherField: string): string
  {
    "The " + field + " field and " + otherField + " field must be different"
  }

  /** `sameAs(otherField)` on `field`: no error exactly when the two values are equal. */
  function SameAs(field: string, value: string, otherField: string, otherValue: string): (r: seq<ValidationError>)
    ensures r == [] <==> value == otherValue
    ensures r != [] ==> r == [ValidationError(SameAsMessage(field, otherField), field, "sameAs")]
  {
    if value == otherValue then [] else [ValidationError(SameAsMessage(field, otherField), field, "sameAs")]
  }

  /** `notSameAs(otherField)` on `field`: no error exactly when the two values differ. */
  function NotSameAs(field: string, value: string, otherField: string, otherValue: string): (r: seq<ValidationError>)
    ensures r == [] <==> value != otherValue
    ensures r != [] ==> r == [ValidationError(NotSameAsMessage(field, otherField), field, "notSameAs")]
  {
    if value != otherValue then [] else [ValidationError(NotSameAsMessage(field, otherField), field, "notSameAs")]
  }

  /** The two rules are complementary: on the same pair of values exactly one of them fails. */
  lemma Complementary(field: string, value: string, otherField: string, otherValue: string)
    ensures (SameAs(field, value, otherField, otherValue) == []) != (NotSameAs(field, value, otherField, otherValue) == [])
  {
  }
}
