/** Option and Result types shared by the model, and the run-time failures of
    the formatter. Each failure is an unchecked Java exception that escapes
    `ColorCodeHTML.format`; the model returns it as a `Failure` value. */
module Base {

  /** A lookup result: `None` stands for Java's `null`. */
  datatype Option<+T> = None | Some(value: T) {

    /** The value, or `default` when absent. */
    function GetOr(default: T): T {
      match this
      case Some(v) => v
      case None => default
    }
  }

  /** The exceptions the formatter can raise on its own. */
  datatype Error =
      /** a "log" or "syntax" parameter whose value is not a String (ClassCastException) */
    | ClassCast(param: string)
      /** a key that lower-cases to "colorcode.special.pattern": `substring(18, 17)` fails */
    | SpecialKeyOverlap
      /** `parse_char_code` on an empty element of a tokenizer property: `charAt(0)` throws StringIndexOutOfBoundsException */
    | EmptyCharCode
      /** `Integer.valueOf` on a tab size or line number that is not a 32-bit decimal */
    | NumberFormat(key: string)
      /** `make_indent` asked for a level outside its 100-slot cache */
    | IndentOutOfRange(level: int)

  /** Either a value or the exception that aborted the computation. */
  datatype Result<+T> = Success(value: T) | Failure(error: Error)
}
