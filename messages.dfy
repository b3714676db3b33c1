/** Values exchanged between the extension's three scripts. */
module Messages {

  /** JavaScript's `null` (or a missing value) versus a present one. */
  datatype Option<T> = None | Some(value: T)

  /** The `error` tag of a failed lookup. */
  datatype Failure = TabError | Timeout

  /** The background's reply to `getCountryForUser`:
      `{country: string|null, error?: 'tab_error'|'timeout'}`. */
  datatype Reply = Reply(country: Option<string>, error: Option<Failure>)
}
