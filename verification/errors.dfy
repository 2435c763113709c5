/** The error taxonomy of the model: each constructor stands for one
    exception the Python code raises, and `Message` gives its text. */
module Errors {
  import StringOrder

  datatype Error =
    /** A fixed-value field (`type`, a bundle's `spec_version`) was given another value. */
    | FixedMismatch(cls: string, field: string, expected: string)
    /** A supplied `id` does not start with the type tag and `--`. */
    | IdPrefix(cls: string, prefix: string)
    /** The first required field, in declared order, that was not supplied. */
    | MissingRequired(cls: string, field: string)
    /** Every supplied field name the schema does not know. */
    | UnexpectedFields(names: set<string>)
    /** A supplied value of the wrong shape for its field. */
    | InvalidValue(cls: string, field: string)
    /** Any assignment to a constructed record. */
    | Immutable
    /** `parse_into_datetime` given something that is neither a date nor text. */
    | UnsupportedTimeInput
    /** The external date parser rejected the text. */
    | UnparseableText
    /** A UTC shift left the years 1 to 9999 (`OverflowError`). */
    | OutOfRange
    /** `format_datetime`'s naive branch reaching the unassigned `zoned`. */
    | UnboundZoned
    /** `get_dict` given something that is neither a dict, text nor a stream. */
    | NotReadable

  /** Python's `repr` of a list of strings whose text needs no escaping. */
  function ReprList(xs: seq<string>): string {
    "[" + ReprItems(xs) + "]"
  }

  function ReprItems(xs: seq<string>): string {
    if xs == [] then ""
    else if |xs| == 1 then "'" + xs[0] + "'"
    else "'" + xs[0] + "', " + ReprItems(xs[1..])
  }

  /** The exception text the Python code produces for each error. */
  function Message(e: Error): string {
    match e
    case FixedMismatch(cls, field, expected) => cls + " must have " + field + "='" + expected + "'."
    case IdPrefix(cls, prefix) => cls + " id values must begin with '" + prefix + "'."
    case MissingRequired(cls, field) => "Missing required field for " + cls + ": '" + field + "'."
    case UnexpectedFields(names) => "unexpected keyword arguments: " + ReprList(StringOrder.Sorted(names))
    case InvalidValue(cls, field) => "Invalid value for " + cls + " '" + field + "'."
    case Immutable => "Cannot modify properties after creation."
    case UnsupportedTimeInput =>
      "must be a datetime object, date object, or timestamp string in a recognizable format."
    case UnparseableText => "Unknown string format"
    case OutOfRange => "date value out of range"
    case UnboundZoned => "local variable 'zoned' referenced before assignment"
    case NotReadable => "object has no attribute 'read'"
  }
}
