/** The request-body schema of the join route: `name` must be a non-empty string. */
module Validation {

  /** The `name` member of a parsed JSON request body. `NonString` stands for
      every JSON value that is present but not a string (null, numbers,
      booleans, arrays, objects). */
  datatype Field = Absent | Str(s: string) | NonString

  /** The kind of a schema violation. The human-readable text of each detail is
      produced by the validation library and is not modelled. */
  datatype Violation = Required | NotAString | EmptyString

  /** The list of violations the schema reports for `name`. The schema stops at
      the first violation, so the list has at most one element, and it is empty
      exactly when `name` is a non-empty string (an all-blank string passes: the
      schema does not trim). */
  function ValidateName(f: Field): (details: seq<Violation>)
    ensures details == [] <==> (f.Str? && |f.s| > 0)
    ensures |details| <= 1
  {
    match f
    case Absent => [Required]
    case NonString => [NotAString]
    case Str(s) => if s == "" then [EmptyString] else []
  }
}
