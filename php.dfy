/** The parts of PHP's value semantics that the notifier depends on. */
module Php {
  import opened Wrappers

  /**
   * PHP's boolean conversion of a value that is either `null` or a string:
   * `null`, `""` and `"0"` are falsy, every other string is truthy.
   */
  predicate Truthy(v: Option<string>): (b: bool)
    // falsy values are exactly null and strings of at most one character
    ensures b ==> v.Some? && |v.value| >= 1
    // every string of two or more characters is truthy, "00" and " 0" included
    ensures v.Some? && |v.value| >= 2 ==> b
    // a one-character string is falsy only when that character is the digit zero
    ensures v.Some? && |v.value| == 1 ==> (b <==> v.value[0] != '0')
  {
    v.Some? && v.value != "" && v.value != "0"
  }
}
