/** Values as they arrive in a JSON request body. `None` stands for a field that is
    absent, `undefined` or `null`; JavaScript's `||` and `!` look only at truthiness. */
module JsValues {

  datatype Option<T> = None | Some(value: T)

  /** Truthiness of an optional string: only a present, non-empty string is truthy. */
  predicate TruthyString(v: Option<string>) {
    v.Some? && v.value != ""
  }

  /** Truthiness of an optional number (NaN is not modelled): only a present,
      non-zero number is truthy. */
  predicate TruthyNumber(v: Option<int>) {
    v.Some? && v.value != 0
  }
}
