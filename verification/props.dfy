/** `java.util.Properties` as the formatter reads it: string keys to string
    values, where a missing key reads as `null`. */
module Props {
  import opened Base
  import opened Strings

  type Properties = map<string, string>

  /** `getProperty(key)`: `None` is Java's `null`. */
  function Get(p: Properties, key: string): Option<string> {
    if key in p then Some(p[key]) else None
  }

  /** A looked-up value as string concatenation renders it: `null` becomes
      the four letters "null". */
  function Text(o: Option<string>): string {
    match o
    case Some(s) => s
    case None => "null"
  }

  /** `value != null && value.length() > 0`, the guard the source puts in
      front of most property uses. */
  predicate NonEmpty(o: Option<string>) {
    o.Some? && |o.value| > 0
  }

  /** `Boolean.valueOf(value).booleanValue()`: true only for "true" in any
      letter case; `null` is false. */
  predicate BooleanOf(o: Option<string>) {
    o.Some? && EqualsIgnoreCase(o.value, "true")
  }
}
