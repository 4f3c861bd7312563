/**
 * The two JavaScript value tests the application's code relies on: truthiness of strings and
 * numbers (`x && {...}` spreads, `if (!x)`) and the nullish fallback `x ?? d`.
 */
module Js {
  import opened Results

  /** A string is truthy unless it is empty. */
  predicate TruthyString(s: string) { s != "" }

  /** A number is truthy unless it is zero (`NaN` is not modelled: numbers are integers here). */
  predicate TruthyNumber(n: int) { n != 0 }

  /** An optional string that is present and truthy (`if (x)` on `string | undefined`). */
  predicate GivenString(o: Option<string>) { o.Some? && TruthyString(o.value) }

  /** An optional number that is present and truthy. */
  predicate GivenNumber(o: Option<int>) { o.Some? && TruthyNumber(o.value) }
}
